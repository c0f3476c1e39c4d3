/** From the text a user types to the rows of the table: what comes back is what the text's filter selects. */
module TextToRows {
  import opened Base
  import opened Seal
  import opened Tokenizer
  import opened Lifting
  import opened Parser
  import opened LiftedStatement
  import opened ClientQuery
  import opened LogicalPlan
  import Indicator
  import Placement
  import Matcher
  import Evaluation
  import Combining
  import opened QueryMeaning
  import opened QueryPath
  import Sharding
  import EpochStore
  import opened RecordCodec
  import opened Geometry

  // ---- values and cells ---------------------------------------------------

  function Chars(bytes: seq<byte>): (s: string) {
    seq(|bytes|, i requires 0 <= i < |bytes| => bytes[i] as char)
  }

  /** A text's characters are bytes. */
  function Bytes(s: string): (bytes: seq<byte>) {
    seq(|s|, i requires 0 <= i < |s| => s[i] as int % 256)
  }

  /** The value a filter sees in a cell. No filter looks at a REAL cell; its bits stand in. */
  function ValueOfCell(cell: Cell): (v: Value) {
    match cell case IntCell(n) => Int(n) case TextCell(bytes) => Text(Chars(bytes)) case RealCell(bits) => Int(bits)
  }

  function CellOfValue(v: Value): (cell: Cell) {
    match v case Int(n) => IntCell(n) case Text(s) => TextCell(Bytes(s))
  }

  /** The key the client searches for: a value is encoded by its own type, whatever the column's. */
  function LiteralKey(v: Value, keyBits: nat, hash: seq<byte> -> nat): (r: Result<nat>)
    requires 0 < keyBits <= 64
  {
    if !CellOfValue(v).Valid() then Err(OutOfRange)
    else EncodeKey(if v.Int? then IntType else TextType, CellOfValue(v), keyBits, hash)
  }

  lemma {:induction false} BytesOfChars(bytes: seq<byte>)
    ensures Bytes(Chars(bytes)) == bytes
  {
  }

  /** A stored key is the key a search for the cell's value uses. */
  lemma {:induction false} SameKey(kind: ColumnType, cell: Cell, keyBits: nat, hash: seq<byte> -> nat)
    requires cell.Valid() && 0 < keyBits <= 64 && EncodeKey(kind, cell, keyBits, hash).Ok?
    ensures LiteralKey(ValueOfCell(cell), keyBits, hash) == EncodeKey(kind, cell, keyBits, hash)
  {
    if cell.TextCell? {
      BytesOfChars(cell.bytes);
    }
  }

  method EncodeLiterals(values: seq<Value>, keyBits: nat, hash: seq<byte> -> nat) returns (r: Result<seq<nat>>)
    requires 0 < keyBits <= 64
    ensures r.Ok? <==> forall i :: 0 <= i < |values| ==> LiteralKey(values[i], keyBits, hash).Ok?
    ensures r.Ok? ==> |r.value| == |values|
    ensures r.Ok? ==> forall i :: 0 <= i < |values| ==> LiteralKey(values[i], keyBits, hash) == Ok(r.value[i])
    ensures r.Ok? ==> forall v :: v in r.value ==> v < Pow2(keyBits)
  {
    var keys: seq<nat> := [];
    for i := 0 to |values|
      invariant |keys| == i
      invariant forall j :: 0 <= j < i ==> LiteralKey(values[j], keyBits, hash) == Ok(keys[j])
      invariant forall v :: v in keys ==> v < Pow2(keyBits)
    {
      var key := LiteralKey(values[i], keyBits, hash);
      if key.Err? {
        return Err(key.error);
      }
      keys := keys + [key.value];
    }
    r := Ok(keys);
  }

  // ---- rows and what is stored of them ------------------------------------

  datatype Record = Record(key: Cell, payload: seq<Cell>)

  function IndexOf(cols: seq<Column>, name: string): (r: Option<nat>)
    ensures r.Some? ==> r.value < |cols| && cols[r.value].name == name
    ensures r.None? ==> forall i :: 0 <= i < |cols| ==> cols[i].name != name
  {
    if cols == [] then None
    else if cols[0].name == name then Some(0)
    else match IndexOf(cols[1..], name) case None => None case Some(i) => Some(i + 1)
  }

  function RowValue(cols: seq<Column>, record: Record, name: string): (v: Value) {
    match IndexOf(cols, name)
    case None => Int(0)
    case Some(c) => match CellOf(cols, record.key, record.payload, c) case None => Int(0) case Some(x) => ValueOfCell(x)
  }

  /** The row holds the record's packed keys and its payload. */
  ghost predicate Stores(cols: seq<Column>, record: Record, row: EpochStore.Row, keyBits: nat, recordBytes: nat,
                         hash: seq<byte> -> nat)
  {
    && record.key.Valid() && AllValid(record.payload) && 0 < keyBits <= 64
    && MatchRecordOf(cols, |cols|, record.key, record.payload, keyBits, hash) == Ok(row.match_)
    && RecordOf(cols, record.payload, recordBytes) == Ok(row.payload)
  }

  ghost predicate StoresAll(cols: seq<Column>, records: seq<Record>, rows: seq<EpochStore.Row>, keyBits: nat,
                            recordBytes: nat, hash: seq<byte> -> nat)
  {
    |records| == |rows| && forall r :: 0 <= r < |rows| ==> Stores(cols, records[r], rows[r], keyBits, recordBytes, hash)
  }

  /** The matcher's table of a shard: the searched keys of the records, and the stored payloads. */
  ghost predicate TableOf(cols: seq<Column>, column: string, records: seq<Record>, rows: seq<EpochStore.Row>,
                          keyBits: nat,
                          hash: seq<byte> -> nat, table: Matcher.Table)
    requires 0 < keyBits <= 64
  {
    && |table.keys| == |table.rows| == |records| == |rows|
    && forall r :: 0 <= r < |records| ==>
         && table.rows[r] == rows[r].payload
         && LiteralKey(RowValue(cols, records[r], column), keyBits, hash) == Ok(table.keys[r])
  }

  lemma {:induction false} StoredKey(cols: seq<Column>, c: nat, record: Record, row: EpochStore.Row, keyBits: nat,
                                     recordBytes: nat, hash: seq<byte> -> nat, table: Matcher.Table, r: nat,
                                         column: string)
    requires Stores(cols, record, row, keyBits, recordBytes, hash) && IndexOf(cols, column) == Some(c)
    requires IsSearchable(cols[c].encoding) && r < |table.keys| && SubKey(row.match_, Rank(cols, c), keyBits).Some?
    requires UnpackKey(SubKey(row.match_, Rank(cols, c), keyBits).value, keyBits) == Ok(table.keys[r])
    ensures LiteralKey(RowValue(cols, record, column), keyBits, hash) == Ok(table.keys[r])
  {
    hide EncodeKey, UnpackKey, SubKey, MatchRecordOf, Rank, CellOf, LiteralKey, IndexOf, RecordOf;
    MatcherSeesEncodedKeys(cols, c, record.key, record.payload, keyBits, hash, row, table, r);
    SameKey(cols[c].kind, CellOf(cols, record.key, record.payload, c).value, keyBits, hash);
  }

  lemma {:induction false} StoredSubKey(cols: seq<Column>, c: nat, record: Record, row: EpochStore.Row, keyBits: nat,
                                        recordBytes: nat, hash: seq<byte> -> nat)
    requires Stores(cols, record, row, keyBits, recordBytes, hash) && c < |cols| && IsSearchable(cols[c].encoding)
    ensures SubKey(row.match_, Rank(cols, c), keyBits).Some?
  {
    hide EncodeKey, UnpackKey, SubKey, MatchRecordOf, Rank, CellOf, RecordOf;
    SubKeyAtRank(cols, |cols|, record.key, record.payload, keyBits, hash, c);
  }

  /** One shard's columns for the matcher. */
  method ShardTable(cols: seq<Column>, column: string, c: nat, rank: nat, ghost records: seq<Record>,
                    rows: seq<EpochStore.Row>, config: Matcher.Table, ghost hash: seq<byte> -> nat)
      returns (r: Result<Matcher.Table>)
    requires 0 < config.keyBits <= 64 && StoresAll(cols, records, rows, config.keyBits, config.recordBytes, hash)
    requires IndexOf(cols, column) == Some(c) && IsSearchable(cols[c].encoding) && rank == Rank(cols, c)
    ensures r.Ok? && r.value.WellFormed() && TableOf(cols, column, records, rows, config.keyBits, hash, r.value)
    ensures r.value == config.(keys := r.value.keys, rows := r.value.rows)
  {
    hide SubKey, UnpackKey, Rank, LiteralKey, RowValue, Stores, IndexOf;
    r := BuildColumns(rows, rank, config.keyBits, config.recordBytes, config.bytesPerSlot);
    forall i | 0 <= i < |rows|
      ensures SubKey(rows[i].match_, rank, config.keyBits).Some?
    {
      StoredSubKey(cols, c, records[i], rows[i], config.keyBits, config.recordBytes, hash);
    }
    forall i | 0 <= i < |rows|
      ensures LiteralKey(RowValue(cols, records[i], column), config.keyBits, hash) == Ok(r.value.keys[i])
    {
      StoredKey(cols, c, records[i], rows[i], config.keyBits, config.recordBytes, hash, r.value, i, column);
    }
  }

  // ---- the text and its plan ----------------------------------------------

  /** The values searched for: the text's literals, or the one value passed beside a text without any. */
  function Searched(literals: seq<Value>, value: int): (values: seq<Value>) {
    if literals == [] then [Int(value)] else literals
  }

  /** The server's plan for the template of a text. */
  ghost predicate Planned(sql: string, tokens: seq<Token>, statement: Statement, p: Prepared, plan: Plan) {
    && Prepares(TrimStatement(sql), tokens, statement, p)
    && BuildPlan(LiftStatement(statement, |Literals(tokens, End)| == 1)) == Ok(plan)
  }

  /** What the client prepares for a text, if it accepts it. */
  function Preparation(sql: string): (r: Option<(Statement, Prepared)>) {
    var src := TrimStatement(sql);
    match Tokens(src)
    case Err(_) => None
    case Ok(tokens) =>
      match ParseText(src)
      case Err(_) => None
      case Ok(s) =>
        match ValuesOf(Literals(tokens, End))
        case None => None
        case Some(values) =>
          Some((s, Prepared(Template(src, End, 0, |Literals(tokens, End)| == 1), values, s.projection.CountStar?,
                            s.limit, s.offset)))
  }

  /** The plan the server makes of the template it is sent. */
  function PlanOf(sql: string): (r: Option<(Statement, Prepared, Plan)>) {
    match Preparation(sql)
    case None => None
    case Some(prepared) =>
      match ParseText(prepared.1.template)
      case Err(_) => None
      case Ok(lifted) =>
        match BuildPlan(lifted) case Err(_) => None case Ok(plan) => Some((prepared.0, prepared.1, plan))
  }

  lemma {:induction false} PreparationPrepares(sql: string)
    ensures Tokens(TrimStatement(sql)).Err? ==> Preparation(sql).None?
    ensures Preparation(sql).Some? ==>
              Prepares(TrimStatement(sql), Tokens(TrimStatement(sql)).value, Preparation(sql).value.0,
                       Preparation(sql).value.1)
  {
    hide Tokens, ParseText, ValuesOf, Template, TrimStatement, Literals;
  }

  /** A plan is the plan of the typed statement with its literals lifted. */
  lemma {:induction false} PlanIsPlanned(sql: string)
    requires PlanOf(sql).Some?
    ensures Tokens(TrimStatement(sql)).Ok?
    ensures var (statement, p, plan) := PlanOf(sql).value;
            Planned(sql, Tokens(TrimStatement(sql)).value, statement, p, plan)
  {
    hide Prepares, LiftStatement, BuildPlan, Literals, TrimStatement, ParseText, Glued, Preparation, Tokens;
    PreparationPrepares(sql);
    var prepared := Preparation(sql).value;
    ServerReadsStatement(sql, TrimStatement(sql), Tokens(TrimStatement(sql)).value, prepared.0, prepared.1);
  }

  lemma {:induction false} PreparedIsPreparation(sql: string, tokens: seq<Token>, statement: Statement, p: Prepared)
    requires Prepares(TrimStatement(sql), tokens, statement, p)
    ensures Preparation(sql) == Some((statement, p))
  {
    hide Tokens, ParseText, ValuesOf, Template, TrimStatement, Literals;
  }

  /** Client and server together: the text is prepared, and its template parsed and planned. */
  method PlanText(sql: string) returns (r: Result<(Plan, seq<Value>)>)
    ensures r.Ok? <==> PlanOf(sql).Some?
    ensures r.Ok? ==> r.value == (PlanOf(sql).value.2, PlanOf(sql).value.1.literals)
  {
    PreparationPrepares(sql);
    hide Prepares, BuildPlan, Literals, TrimStatement, ParseText;
    var prepared, tokens, statement := PrepareClientQuery(sql);
    if prepared.Err? {
      NoPreparation(sql);
      return Err(prepared.error);
    }
    PreparedIsPreparation(sql, tokens, statement, prepared.value);
    hide Preparation;
    var parsed := Parse(prepared.value.template);
    if parsed.Err? {
      return Err(parsed.error);
    }
    var plan := BuildLogicalPlan(parsed.value);
    r := if plan.Err? then Err(plan.error) else Ok((plan.value, prepared.value.literals));
  }

  lemma {:induction false} NoPreparation(sql: string)
    requires var src := TrimStatement(sql);
             ParseText(src).Err? || Tokens(src).Err? || ValuesOf(Literals(Tokens(src).value, End)).None?
    ensures Preparation(sql).None?
  {
    hide Tokens, ParseText, ValuesOf, Template, TrimStatement, Literals;
  }

  /** A plan that wants as many operands as are searched for selects what the text's filter selects. */
  lemma {:induction false} PlanSelects(sql: string, tokens: seq<Token>, statement: Statement, p: Prepared, plan: Plan,
                                       value: int, m: Meaning)
    requires Planned(sql, tokens, statement, p, plan) && |Searched(p.literals, value)| == plan.operands
    requires forall name :: m.env(name) == Int(value)
    ensures statement.filter.Some?
    ensures Eval(statement.filter.value, m) <==> Selects(plan.op, Searched(p.literals, value), m.row(plan.column))
  {
    hide Prepares, LiftStatement, BuildPlan, Literals, TrimStatement, Eval, Selects;
    var src, single := TrimStatement(sql), |Literals(tokens, End)| == 1;
    if p.literals == [] {
      PlanMeansBound(sql, src, tokens, statement, p, plan, single, m);
    } else {
      PlanMeansLiterals(sql, src, tokens, statement, p, plan, m);
    }
  }

  /**
   The client's operand count: the engine finds as many operands as it planned for exactly when none of the values is a
   bound parameter (or the only one is) and no two of them have the same key.
   */
  lemma {:induction false} OperandsAgree(sql: string, tokens: seq<Token>, statement: Statement, p: Prepared, plan: Plan,
                                         value: int, keys: seq<nat>)
    requires Planned(sql, tokens, statement, p, plan) && |keys| == |Searched(p.literals, value)|
    ensures |Dedup(keys)| == plan.operands <==> |Searched(p.literals, value)| == plan.operands && Distinct(keys)
    ensures statement.filter.Some?
    ensures p.literals != [] ==>
              (|Dedup(keys)| == plan.operands <==> AllLiteral(ParamsOf(statement.filter.value)) && Distinct(keys))
  {
    hide Prepares, LiftStatement, BuildPlan, Literals, TrimStatement, AllLiteral, ParamsOf;
    OperandCounts(sql, TrimStatement(sql), tokens, statement, p, plan, |Literals(tokens, End)| == 1);
    DedupKeepsAll(keys);
    SomeOperand(statement, plan, |Literals(tokens, End)| == 1);
    OneIsKept(keys);
  }

  lemma {:induction false} SomeOperand(statement: Statement, plan: Plan, single: bool)
    requires BuildPlan(LiftStatement(statement, single)) == Ok(plan)
    ensures plan.operands > 0
  {
    hide LiftStatement;
  }

  lemma {:induction false} OneIsKept(keys: seq<nat>)
    ensures keys != [] ==> |Dedup(keys)| > 0
  {
    if keys != [] {
      assert keys[0] in Dedup(keys);
    }
  }

  /** For a text whose values are all literals: the counts agree exactly when the encoded literals are distinct. */
  lemma {:induction false} LiteralOperandsAgree(sql: string, tokens: seq<Token>, statement: Statement, p: Prepared,
                                                plan: Plan, encode: Value -> nat)
    requires Planned(sql, tokens, statement, p, plan) && statement.filter.Some?
    requires AllLiteral(ParamsOf(statement.filter.value))
    ensures |Dedup(EncodeAll(p.literals, encode))| == plan.operands <==> Distinct(EncodeAll(p.literals, encode))
  {
    hide Prepares, LiftStatement, BuildPlan, Literals, TrimStatement, AllLiteral, ParamsOf;
    OperandCounts(sql, TrimStatement(sql), tokens, statement, p, plan, |Literals(tokens, End)| == 1);
    DedupKeepsAll(EncodeAll(p.literals, encode));
  }

  /** A value listed twice, as in IN (5, 5): two operands are planned and one is sent, so the engine refuses. */
  lemma {:induction false} RepeatedIsRefused(sql: string, tokens: seq<Token>, statement: Statement, p: Prepared,
                                             plan: Plan,
                                             column: string, v: Value, encode: Value -> nat)
    requires Planned(sql, tokens, statement, p, plan)
    requires statement.filter == Some(In(column, [Literal(v), Literal(v)]))
    ensures p.literals == [v, v] && plan.operands == 2
    ensures EncodeAll(p.literals, encode) == [encode(v), encode(v)] && Dedup([encode(v), encode(v)]) == [encode(v)]
  {
    ClientKeepsLiterals(sql, TrimStatement(sql), tokens, statement, p);
    OperandCounts(sql, TrimStatement(sql), tokens, statement, p, plan, |Literals(tokens, End)| == 1);
    hide Prepares, BuildPlan, Literals, TrimStatement;
    TwoLifted(column, v);
    TwiceIsOnce(encode(v));
  }

  lemma {:induction false} TwoLifted(column: string, v: Value)
    ensures LiftPred(In(column, [Literal(v), Literal(v)]), [], false).1 == [v, v]
  {
    hide Name;
    assert [Literal(v), Literal(v)][..1] == [Literal(v)] && [Literal(v)][..0] == [];
    assert LiftParams([Literal(v)], [], false).1 == [v];
  }

  lemma {:induction false} TwiceIsOnce(k: nat)
    ensures Dedup([k, k]) == [k]
  {
    assert [k, k][..1] == [k] && [k][..0] == [];
  }

  // ---- the rows that come back --------------------------------------------

  /** The text's filter holds of a record; m fixes the bound value, the ordering and the patterns. */
  ghost predicate Satisfies(filter: Pred, cols: seq<Column>, record: Record, m: Meaning) {
    Eval(filter, m.(row := (name: string) => RowValue(cols, record, name)))
  }

  /** No record has the key of a searched value without having the value. */
  ghost predicate KeysApart(cols: seq<Column>, column: string, records: seq<Record>, values: seq<Value>, keyBits: nat,
                            hash: seq<byte> -> nat)
    requires 0 < keyBits <= 64
  {
    forall r, i :: 0 <= r < |records| && 0 <= i < |values|
                   && LiteralKey(values[i], keyBits, hash)
                       == LiteralKey(RowValue(cols, records[r], column), keyBits, hash)
                   ==> RowValue(cols, records[r], column) in values
  }

  /** On an INTEGER column numbers are always apart. */
  lemma {:induction false} NumbersApart(cols: seq<Column>, column: string, c: nat, records: seq<Record>,
                                        rows: seq<EpochStore.Row>, values: seq<Value>, keyBits: nat, recordBytes: nat,
                                        hash: seq<byte> -> nat)
    requires StoresAll(cols, records, rows, keyBits, recordBytes, hash) && 0 < keyBits <= 64
    requires IndexOf(cols, column) == Some(c) && IsSearchable(cols[c].encoding) && cols[c].kind == IntType
    requires forall i :: 0 <= i < |values| ==> values[i].Int?
    ensures KeysApart(cols, column, records, values, keyBits, hash)
  {
    hide IndexOf, StoresAll, Stores;
    forall r, i | 0 <= r < |records| && 0 <= i < |values|
                  && LiteralKey(values[i], keyBits, hash)
                      == LiteralKey(RowValue(cols, records[r], column), keyBits, hash)
      ensures RowValue(cols, records[r], column) in values
    {
      StoredNumber(cols, column, c, records, rows, keyBits, recordBytes, hash, r);
      SameNumber(values[i], RowValue(cols, records[r], column), keyBits, hash);
      assert values[i] in values;
    }
  }

  lemma {:induction false} StoredNumber(cols: seq<Column>, column: string, c: nat, records: seq<Record>,
                                        rows: seq<EpochStore.Row>, keyBits: nat, recordBytes: nat,
                                            hash: seq<byte> -> nat,
                                        r: nat)
    requires StoresAll(cols, records, rows, keyBits, recordBytes, hash) && 0 < keyBits <= 64 && r < |records|
    requires IndexOf(cols, column) == Some(c) && IsSearchable(cols[c].encoding) && cols[c].kind == IntType
    ensures RowValue(cols, records[r], column).Int? && LiteralKey(RowValue(cols, records[r], column), keyBits, hash).Ok?
  {
    hide IndexOf, MatchRecordOf, SubKey, UnpackKey, Rank, CellOf, RecordOf;
    SubKeyAtRank(cols, |cols|, records[r].key, records[r].payload, keyBits, hash, c);
  }

  lemma {:induction false} SameNumber(v: Value, w: Value, keyBits: nat, hash: seq<byte> -> nat)
    requires 0 < keyBits <= 64 && v.Int? && w.Int? && LiteralKey(v, keyBits, hash) == LiteralKey(w, keyBits, hash)
    requires LiteralKey(w, keyBits, hash).Ok?
    ensures v == w
  {
    IntKeysAreExact(v.number, w.number, keyBits, hash);
  }

  /** A search for a text finds the number that the text's hash, cut to the key size, happens to be. */
  lemma {:induction false} TextMeetsNumber(s: string, keyBits: nat, hash: seq<byte> -> nat)
    requires 0 < keyBits < 64
    ensures var n := Mod(hash(Bytes(s)), Pow2(keyBits));
            LiteralKey(Text(s), keyBits, hash) == LiteralKey(Int(n), keyBits, hash) == Ok(n)
  {
    Pow2Monotone(keyBits, 63);
    KeySpace();
  }

  ghost function SatisfyingCount(filter: Pred, cols: seq<Column>, records: seq<Record>, n: nat, m: Meaning): (k: nat)
    requires n <= |records|
  {
    if n == 0 then 0
    else SatisfyingCount(filter, cols, records, n - 1, m) + if Satisfies(filter, cols, records[n - 1], m) then 1 else 0
  }

  ghost function SatisfyingRecords(filter: Pred, cols: seq<Column>, records: seq<Record>, rows: seq<EpochStore.Row>,
                                   n: nat,
                                   m: Meaning): (b: multiset<seq<byte>>)
    requires n <= |records| == |rows|
  {
    if n == 0 then multiset{}
    else
      SatisfyingRecords(filter, cols, records, rows, n - 1, m)
      + if Satisfies(filter, cols, records[n - 1], m) then multiset{rows[n - 1].payload} else multiset{}
  }

  ghost function CountAll(filter: Pred, cols: seq<Column>, records: seq<seq<Record>>, n: nat, m: Meaning): (k: nat)
    requires n <= |records|
  {
    if n == 0 then 0
    else CountAll(filter, cols, records, n - 1, m)
         + SatisfyingCount(filter, cols, records[n - 1], |records[n - 1]|, m)
  }

  ghost predicate SameShape(records: seq<seq<Record>>, shards: seq<seq<EpochStore.Row>>) {
    |records| == |shards| && forall s :: 0 <= s < |shards| ==> |records[s]| == |shards[s]|
  }

  ghost function RecordsAll(filter: Pred, cols: seq<Column>, records: seq<seq<Record>>,
                            shards: seq<seq<EpochStore.Row>>,
                            n: nat, m: Meaning): (b: multiset<seq<byte>>)
    requires SameShape(records, shards) && n <= |records|
  {
    if n == 0 then multiset{}
    else RecordsAll(filter, cols, records, shards, n - 1, m)
         + SatisfyingRecords(filter, cols, records[n - 1], shards[n - 1], |records[n - 1]|, m)
  }

  /** The engine's match on keys decides a record as the text's filter does, given that keys are apart. */
  ghost predicate Decides(filter: Pred, cols: seq<Column>, records: seq<Record>, m: Meaning, op: Indicator.Op,
                          keys: seq<nat>,
                          table: Matcher.Table)
  {
    && |table.keys| == |records|
    && forall r :: 0 <= r < |records| ==> (Matches(op, keys, table.keys[r]) <==> Satisfies(filter, cols, records[r], m))
  }

  ghost predicate KeysOf(values: seq<Value>, keys: seq<nat>, keyBits: nat, hash: seq<byte> -> nat)
    requires 0 < keyBits <= 64
  {
    |keys| == |values| && forall i :: 0 <= i < |values| ==> LiteralKey(values[i], keyBits, hash) == Ok(keys[i])
  }

  lemma {:induction false} KeyMatches(op: CompareOp, values: seq<Value>, keys: seq<nat>, x: Value, k: nat, keyBits: nat,
                                      hash: seq<byte> -> nat)
    requires 0 < keyBits <= 64 && KeysOf(values, keys, keyBits, hash) && LiteralKey(x, keyBits, hash) == Ok(k)
    requires forall i :: 0 <= i < |values| && LiteralKey(values[i], keyBits, hash) == Ok(k) ==> x in values
    ensures Matches(EngineOp(op), keys, k) <==> Selects(op, values, x)
  {
    hide LiteralKey;
    if x in values {
      var i :| 0 <= i < |values| && values[i] == x;
      assert keys[i] == k;
    }
    if k in keys {
      var i :| 0 <= i < |keys| && keys[i] == k;
      assert LiteralKey(values[i], keyBits, hash) == Ok(k);
    }
  }

  lemma {:induction false} EngineDecides(sql: string, tokens: seq<Token>, statement: Statement, p: Prepared, plan: Plan,
                                         value: int, m: Meaning, cols: seq<Column>, records: seq<Record>,
                                         rows: seq<EpochStore.Row>, keys: seq<nat>, keyBits: nat,
                                             hash: seq<byte> -> nat,
                                         table: Matcher.Table)
    requires Planned(sql, tokens, statement, p, plan) && |Searched(p.literals, value)| == plan.operands
    requires forall name :: m.env(name) == Int(value)
    requires 0 < keyBits <= 64 && KeysOf(Searched(p.literals, value), keys, keyBits, hash)
    requires TableOf(cols, plan.column, records, rows, keyBits, hash, table)
    requires KeysApart(cols, plan.column, records, Searched(p.literals, value), keyBits, hash)
    ensures statement.filter.Some?
    ensures Decides(statement.filter.value, cols, records, m, EngineOp(plan.op), keys, table)
  {
    hide Planned, Searched, KeysOf, LiteralKey, RowValue, Eval, Selects, Matches;
    var values := Searched(p.literals, value);
    PlanSelects(sql, tokens, statement, p, plan, value, m);
    forall r | 0 <= r < |records|
      ensures Matches(EngineOp(plan.op), keys, table.keys[r]) <==>
                Satisfies(statement.filter.value, cols, records[r], m)
    {
      var x := RowValue(cols, records[r], plan.column);
      PlanSelects(sql, tokens, statement, p, plan, value,
          m.(row := (name: string) => RowValue(cols, records[r], name)));
      KeyMatches(plan.op, values, keys, x, table.keys[r], keyBits, hash);
    }
  }

  lemma {:induction false} ShardCount(filter: Pred, cols: seq<Column>, records: seq<Record>, m: Meaning,
                                      q: Matcher.Query, n: nat)
    requires Decides(filter, cols, records, m, q.op, q.values, q.table) && n <= |records|
    ensures MatchCount(q, n) == SatisfyingCount(filter, cols, records, n, m)
  {
    hide Matches, Satisfies;
    if n > 0 {
      ShardCount(filter, cols, records, m, q, n - 1);
    }
  }

  lemma {:induction false} StoredRecord(cols: seq<Column>, record: Record, row: EpochStore.Row, keyBits: nat,
                                        hash: seq<byte> -> nat, table: Matcher.Table, r: nat)
    requires Stores(cols, record, row, keyBits, table.recordBytes, hash) && r < |table.rows|
    requires table.rows[r] == row.payload
    ensures PaddedRecord(table, r) == row.payload
  {
    hide MatchRecordOf, EncodeFields;
  }

  lemma {:induction false} ShardRecords(filter: Pred, cols: seq<Column>, records: seq<Record>,
                                        rows: seq<EpochStore.Row>,
                                        m: Meaning, q: Matcher.Query, keyBits: nat, hash: seq<byte> -> nat, n: nat)
    requires Decides(filter, cols, records, m, q.op, q.values, q.table) && n <= |records| == |rows| == |q.table.rows|
    requires StoresAll(cols, records, rows, keyBits, q.table.recordBytes, hash)
    requires forall r :: 0 <= r < |rows| ==> q.table.rows[r] == rows[r].payload
    ensures Sharding.MatchingRecords(q, n) == SatisfyingRecords(filter, cols, records, rows, n, m)
  {
    hide Matches, Satisfies, PaddedRecord, Stores;
    if n > 0 {
      ShardRecords(filter, cols, records, rows, m, q, keyBits, hash, n - 1);
      StoredRecord(cols, records[n - 1], rows[n - 1], keyBits, hash, q.table, n - 1);
    }
  }

  /** Every shard's match decides its records, and its table holds their payloads. */
  ghost predicate Faithful(filter: Pred, cols: seq<Column>, records: seq<seq<Record>>, shards: seq<seq<EpochStore.Row>>,
                           m: Meaning, qs: seq<Matcher.Query>, keyBits: nat, recordBytes: nat, hash: seq<byte> -> nat)
  {
    && SameShape(records, shards) && |qs| == |shards|
    && forall s :: 0 <= s < |qs| ==>
         && Decides(filter, cols, records[s], m, qs[s].op, qs[s].values, qs[s].table)
         && StoresAll(cols, records[s], shards[s], keyBits, recordBytes, hash) && qs[s].table.recordBytes == recordBytes
         && |qs[s].table.rows| == |shards[s]|
         && forall r :: 0 <= r < |shards[s]| ==> qs[s].table.rows[r] == shards[s][r].payload
  }

  lemma {:induction false} CountsAgree(filter: Pred, cols: seq<Column>, records: seq<seq<Record>>,
                                       shards: seq<seq<EpochStore.Row>>, m: Meaning, qs: seq<Matcher.Query>,
                                           keyBits: nat,
                                       recordBytes: nat, hash: seq<byte> -> nat, n: nat)
    requires Faithful(filter, cols, records, shards, m, qs, keyBits, recordBytes, hash) && n <= |qs|
    ensures Sharding.TotalMatches(qs, n) == CountAll(filter, cols, records, n, m)
  {
    hide Decides, StoresAll, MatchCount, SatisfyingCount;
    if n > 0 {
      CountsAgree(filter, cols, records, shards, m, qs, keyBits, recordBytes, hash, n - 1);
      ShardSizes(filter, cols, records[n - 1], m, qs[n - 1]);
      ShardCount(filter, cols, records[n - 1], m, qs[n - 1], |records[n - 1]|);
    }
  }

  lemma {:induction false} ShardSizes(filter: Pred, cols: seq<Column>, records: seq<Record>, m: Meaning,
                                      q: Matcher.Query)
    requires Decides(filter, cols, records, m, q.op, q.values, q.table)
    ensures |q.table.keys| == |records|
  {
  }

  lemma {:induction false} RecordsAgree(filter: Pred, cols: seq<Column>, records: seq<seq<Record>>,
                                        shards: seq<seq<EpochStore.Row>>, m: Meaning, qs: seq<Matcher.Query>,
                                            keyBits: nat,
                                        recordBytes: nat, hash: seq<byte> -> nat, n: nat)
    requires Faithful(filter, cols, records, shards, m, qs, keyBits, recordBytes, hash) && n <= |qs|
    requires Sharding.WholeRows(qs)
    ensures Sharding.AllMatchingRecords(qs, n) == RecordsAll(filter, cols, records, shards, n, m)
  {
    hide Decides, StoresAll, Sharding.MatchingRecords, SatisfyingRecords;
    if n > 0 {
      RecordsAgree(filter, cols, records, shards, m, qs, keyBits, recordBytes, hash, n - 1);
      ShardSizes(filter, cols, records[n - 1], m, qs[n - 1]);
      ShardRecords(filter, cols, records[n - 1], shards[n - 1], m, qs[n - 1], keyBits, hash, |records[n - 1]|);
    }
  }

  /** What the buckets say of the text's filter. */
  ghost predicate Tells(filter: Pred, cols: seq<Column>, records: seq<seq<Record>>, shards: seq<seq<EpochStore.Row>>,
                        m: Meaning, results: seq<Combining.BucketResult>)
    requires SameShape(records, shards)
  {
    && CountTotal(results) == CountAll(filter, cols, records, |records|, m)
    && multiset(CleanRecords(results)) <= RecordsAll(filter, cols, records, shards, |records|, m)
    && (Sharding.NoneCollided(results) ==>
          multiset(CleanRecords(results)) == RecordsAll(filter, cols, records, shards, |records|, m))
  }

  lemma {:induction false} BucketsTell(l: Placement.Layout, mix: nat -> nat, t: nat,
                                       results: seq<Combining.BucketResult>,
                                       filter: Pred, cols: seq<Column>, records: seq<seq<Record>>,
                                       shards: seq<seq<EpochStore.Row>>, m: Meaning, qs: seq<Matcher.Query>,
                                           keyBits: nat,
                                       recordBytes: nat, hash: seq<byte> -> nat)
    requires Faithful(filter, cols, records, shards, m, qs, keyBits, recordBytes, hash) && Sharding.WholeRows(qs)
    requires l.buckets > 0 && Answers(l, mix, qs, t, results) && CountAll(filter, cols, records, |records|, m) < t
    ensures Tells(filter, cols, records, shards, m, results)
  {
    hide Answers, Faithful, CountTotal, CleanRecords, CountAll, RecordsAll, Sharding.TotalMatches;
    hide Sharding.AllMatchingRecords, Sharding.WholeRows;
    assert |qs| == |records| && SameShape(records, shards) by {
      assert Faithful(filter, cols, records, shards, m, qs, keyBits, recordBytes, hash);
      FaithfulShape(filter, cols, records, shards, m, qs, keyBits, recordBytes, hash);
    }
    CountsAgree(filter, cols, records, shards, m, qs, keyBits, recordBytes, hash, |qs|);
    RecordsAgree(filter, cols, records, shards, m, qs, keyBits, recordBytes, hash, |qs|);
    Sharding.CountIsExact(l, mix, qs, t, results);
    Sharding.CleanIsComplete(l, mix, qs, t, results);
  }

  lemma {:induction false} FaithfulShape(filter: Pred, cols: seq<Column>, records: seq<seq<Record>>,
                                         shards: seq<seq<EpochStore.Row>>, m: Meaning, qs: seq<Matcher.Query>,
                                             keyBits: nat,
                                         recordBytes: nat, hash: seq<byte> -> nat)
    requires Faithful(filter, cols, records, shards, m, qs, keyBits, recordBytes, hash)
    ensures |qs| == |records| && SameShape(records, shards)
  {
  }

  /** No shard has a row, so nothing comes back and nothing satisfies. */
  lemma {:induction false} NothingTells(filter: Pred, cols: seq<Column>, records: seq<seq<Record>>,
                                        shards: seq<seq<EpochStore.Row>>, m: Meaning, n: nat)
    requires SameShape(records, shards) && n <= |records| && forall s :: 0 <= s < |records| ==> records[s] == []
    ensures CountAll(filter, cols, records, n, m) == 0
    ensures RecordsAll(filter, cols, records, shards, n, m) == multiset{}
  {
    if n > 0 {
      NothingTells(filter, cols, records, shards, m, n - 1);
    }
  }

  ghost predicate StoresShards(cols: seq<Column>, records: seq<seq<Record>>, shards: seq<seq<EpochStore.Row>>,
                               keyBits: nat,
                               recordBytes: nat, hash: seq<byte> -> nat)
  {
    && SameShape(records, shards)
    && forall s :: 0 <= s < |shards| ==> StoresAll(cols, records[s], shards[s], keyBits, recordBytes, hash)
  }

  ghost predicate TablesOf(cols: seq<Column>, column: string, records: seq<seq<Record>>,
                           shards: seq<seq<EpochStore.Row>>,
                           keyBits: nat, hash: seq<byte> -> nat, tables: seq<Matcher.Table>)
    requires 0 < keyBits <= 64
  {
    && SameShape(records, shards) && |tables| == |shards|
    && forall s :: 0 <= s < |shards| ==> TableOf(cols, column, records[s], shards[s], keyBits, hash, tables[s])
  }

  /** Every shard's columns for the matcher. */
  method ShardTables(cols: seq<Column>, column: string, c: nat, rank: nat, ghost records: seq<seq<Record>>,
                     shards: seq<seq<EpochStore.Row>>, config: Matcher.Table, ghost hash: seq<byte> -> nat)
      returns (r: Result<seq<Matcher.Table>>)
    requires 0 < config.keyBits <= 64 && config.recordBytes > 0 && config.bytesPerSlot > 0
    requires StoresShards(cols, records, shards, config.keyBits, config.recordBytes, hash)
    requires IndexOf(cols, column) == Some(c) && IsSearchable(cols[c].encoding) && rank == Rank(cols, c)
    ensures r.Ok? && Deployed(config, r.value)
    ensures TablesOf(cols, column, records, shards, config.keyBits, hash, r.value)
  {
    hide StoresAll, TableOf, IndexOf, Rank, Matcher.Table.WellFormed;
    var tables: seq<Matcher.Table> := [];
    for s := 0 to |shards|
      invariant |tables| == s && Deployed(config, tables)
      invariant forall k :: 0 <= k < s ==> TableOf(cols, column, records[k], shards[k], config.keyBits, hash, tables[k])
    {
      var table := ShardTable(cols, column, c, rank, records[s], shards[s], config, hash);
      TableSizes(cols, column, records[s], shards[s], config.keyBits, hash, table.value);
      tables := tables + [table.value];
    }
    r := Ok(tables);
  }

  lemma {:induction false} TableSizes(cols: seq<Column>, column: string, records: seq<Record>,
                                      rows: seq<EpochStore.Row>,
                                      keyBits: nat, hash: seq<byte> -> nat, table: Matcher.Table)
    requires 0 < keyBits <= 64 && TableOf(cols, column, records, rows, keyBits, hash, table)
    ensures |table.keys| == |table.rows| == |records| == |rows|
    ensures forall r :: 0 <= r < |rows| ==> table.rows[r] == rows[r].payload
  {
  }

  ghost predicate ShardsApart(cols: seq<Column>, column: string, records: seq<seq<Record>>, values: seq<Value>,
                              keyBits: nat,
                              hash: seq<byte> -> nat)
    requires 0 < keyBits <= 64
  {
    forall s :: 0 <= s < |records| ==> KeysApart(cols, column, records[s], values, keyBits, hash)
  }

  lemma {:induction false} ShardsAreFaithful(sql: string, tokens: seq<Token>, statement: Statement, p: Prepared,
                                             plan: Plan,
                                             value: int, m: Meaning, cols: seq<Column>, records: seq<seq<Record>>,
                                             shards: seq<seq<EpochStore.Row>>, keys: seq<nat>, hash: seq<byte> -> nat,
                                             config: Matcher.Table, tables: seq<Matcher.Table>, t: nat)
    requires Planned(sql, tokens, statement, p, plan) && |Searched(p.literals, value)| == plan.operands
    requires forall name :: m.env(name) == Int(value)
    requires 0 < config.keyBits <= 64 && KeysOf(Searched(p.literals, value), keys, config.keyBits, hash)
    requires TablesOf(cols, plan.column, records, shards, config.keyBits, hash, tables) && Deployed(config, tables)
    requires StoresShards(cols, records, shards, config.keyBits, config.recordBytes, hash)
    requires ShardsApart(cols, plan.column, records, Searched(p.literals, value), config.keyBits, hash)
    ensures statement.filter.Some?
    ensures Faithful(statement.filter.value, cols, records, shards, m, ShardQueries(t, EngineOp(plan.op), keys, tables),
                     config.keyBits, config.recordBytes, hash)
    ensures Sharding.WholeRows(ShardQueries(t, EngineOp(plan.op), keys, tables))
  {
    hide Planned, Searched, KeysOf, TableOf, StoresAll, KeysApart, Decides, EngineOp, Matcher.Table.WellFormed;
    PlanSelects(sql, tokens, statement, p, plan, value, m);
    var qs := ShardQueries(t, EngineOp(plan.op), keys, tables);
    forall s | 0 <= s < |shards|
      ensures Decides(statement.filter.value, cols, records[s], m, qs[s].op, qs[s].values, qs[s].table)
      ensures |qs[s].table.rows| == |shards[s]|
      ensures forall r :: 0 <= r < |shards[s]| ==> qs[s].table.rows[r] == shards[s][r].payload
    {
      TableSizes(cols, plan.column, records[s], shards[s], config.keyBits, hash, tables[s]);
      EngineDecides(sql, tokens, statement, p, plan, value, m, cols, records[s], shards[s], keys, config.keyBits, hash,
                    tables[s]);
    }
  }

  lemma {:induction false} EmptyShards(cols: seq<Column>, column: string, records: seq<seq<Record>>,
                                       shards: seq<seq<EpochStore.Row>>, keyBits: nat, hash: seq<byte> -> nat,
                                       tables: seq<Matcher.Table>)
    requires 0 < keyBits <= 64 && TablesOf(cols, column, records, shards, keyBits, hash, tables) && !HasRows(tables)
    ensures forall s :: 0 <= s < |records| ==> records[s] == []
  {
    hide TableOf;
    forall s | 0 <= s < |records|
      ensures records[s] == []
    {
      TableSizes(cols, column, records[s], shards[s], keyBits, hash, tables[s]);
      assert tables[s].keys == [];
    }
  }

  /** The answer tells the truth about the text's filter. */
  lemma {:induction false} AnswerTells(c: Crypto, x: Context, mix: nat -> nat, sql: string, tokens: seq<Token>,
                                       statement: Statement, p: Prepared, plan: Plan, value: int, m: Meaning,
                                       cols: seq<Column>, records: seq<seq<Record>>, shards: seq<seq<EpochStore.Row>>,
                                       keys: seq<nat>, hash: seq<byte> -> nat, tables: seq<Matcher.Table>,
                                       results: seq<Combining.BucketResult>)
    requires Accepts(c) && ContextOf(c, x) && Evaluation.GeometryOk(x, EmptyTable(c), c.buckets)
    requires IsPowerOfTwo(x.row) && x.row < Placement.U32
    requires Planned(sql, tokens, statement, p, plan) && |Searched(p.literals, value)| == plan.operands
    requires forall name :: m.env(name) == Int(value)
    requires KeysOf(Searched(p.literals, value), keys, c.keyBits, hash)
    requires TablesOf(cols, plan.column, records, shards, c.keyBits, hash, tables) && Deployed(EmptyTable(c), tables)
    requires StoresShards(cols, records, shards, c.keyBits, c.recordBytes, hash)
    requires ShardsApart(cols, plan.column, records, Searched(p.literals, value), c.keyBits, hash)
    requires !HasRows(tables) ==> results == []
    requires HasRows(tables) ==>
               Answers(Evaluation.LayoutOf(x, EmptyTable(c), c.buckets), mix,
                       ShardQueries(x.t, EngineOp(plan.op), keys, tables), x.t, results)
    ensures statement.filter.Some?
    ensures CountAll(statement.filter.value, cols, records, |records|, m) < x.t ==>
              Tells(statement.filter.value, cols, records, shards, m, results)
  {
    assert 0 < c.keyBits <= 64;
    hide Planned, Searched, KeysOf, Accepts, ContextOf, Answers, Evaluation.GeometryOk, Faithful, ShardQueries;
    hide Deployed;
    hide HasRows, ShardsApart, Sharding.WholeRows, CountAll, Evaluation.LayoutOf;
    ShardsAreFaithful(sql, tokens, statement, p, plan, value, m, cols, records, shards, keys, hash, EmptyTable(c),
        tables, x.t);
    var filter := statement.filter.value;
    if CountAll(filter, cols, records, |records|, m) < x.t {
      if HasRows(tables) {
        BucketsTell(Evaluation.LayoutOf(x, EmptyTable(c), c.buckets), mix, x.t, results, filter, cols, records, shards,
            m,
                    ShardQueries(x.t, EngineOp(plan.op), keys, tables), c.keyBits, c.recordBytes, hash);
      } else {
        EmptyShards(cols, plan.column, records, shards, c.keyBits, hash, tables);
        NothingTells(filter, cols, records, shards, m, |records|);
      }
    }
  }

  /** Evaluation and decoding of a planned text. */
  method AnswerTables(c: Crypto, x: Context, mix: nat -> nat, plan: Plan, keys: seq<nat>, cols: seq<Column>, index: nat,
                      rank: nat, shards: seq<seq<EpochStore.Row>>, hw: nat, ghost records: seq<seq<Record>>,
                      ghost hash: seq<byte> -> nat, ghost sql: string, ghost tokens: seq<Token>,
                      ghost statement: Statement, ghost p: Prepared, ghost value: int, ghost m: Meaning)
      returns (r: Result<seq<Combining.BucketResult>>)
    requires Accepts(c) && ContextOf(c, x) && StoresShards(cols, records, shards, c.keyBits, c.recordBytes, hash)
    requires forall name :: m.env(name) == Int(value)
    requires Planned(sql, tokens, statement, p, plan) && KeysOf(Searched(p.literals, value), keys, c.keyBits, hash)
    requires forall v :: v in keys ==> v < Pow2(c.keyBits)
    requires IndexOf(cols, plan.column) == Some(index) && IsSearchable(cols[index].encoding)
    requires rank == Rank(cols, index)
    ensures statement.filter.Some?
    ensures r.Ok? <==> 1 <= |Dedup(keys)| == plan.operands <= MAX_OPERANDS
    ensures r.Ok? && ShardsApart(cols, plan.column, records, Searched(p.literals, value), c.keyBits, hash)
            && CountAll(statement.filter.value, cols, records, |records|, m) < x.t ==>
              Tells(statement.filter.value, cols, records, shards, m, r.value)
  {
    assert 0 < c.keyBits <= 64 && c.recordBytes > 0;
    hide Evaluation.GeometryOk, Answers, Evaluation.LayoutOf, Planned, StoresShards, TablesOf, ShardQueries;
    hide ShardsApart, Tells, CountAll, Deployed, HasRows, Accepts, ContextOf, IndexOf, Rank, Distinct, Searched;
    hide LiteralKey;
    OperandsAgree(sql, tokens, statement, p, plan, value, keys);
    DedupKeepsAll(keys);
    hide KeysOf;
    var tables := ShardTables(cols, plan.column, index, rank, records, shards, EmptyTable(c), hash);
    r := AnswerQuery(c, x, mix, EngineOp(plan.op), keys, plan.operands, tables.value, hw);
    if r.Ok? && ShardsApart(cols, plan.column, records, Searched(p.literals, value), c.keyBits, hash) {
      AnswerTells(c, x, mix, sql, tokens, statement, p, plan, value, m, cols, records, shards, keys, hash, tables.value,
                  r.value);
    }
  }

  function KeysFor(values: seq<Value>, keyBits: nat, hash: seq<byte> -> nat): (keys: seq<nat>)
    requires 0 < keyBits <= 64 && forall i :: 0 <= i < |values| ==> LiteralKey(values[i], keyBits, hash).Ok?
    ensures |keys| == |values|
  {
    seq(|values|, i requires 0 <= i < |values| => LiteralKey(values[i], keyBits, hash).value)
  }

  /** The searched column is there and has keys. */
  predicate Searchable(cols: seq<Column>, column: string) {
    match IndexOf(cols, column) case None => false case Some(c) => IsSearchable(cols[c].encoding)
  }

  /** The text is accepted and planned, its column is searchable, and its values have as many keys as planned. */
  predicate Answerable(sql: string, value: int, cols: seq<Column>, keyBits: nat, hash: seq<byte> -> nat)
    requires 0 < keyBits <= 64
  {
    match PlanOf(sql)
    case None => false
    case Some(planned) =>
      var values := Searched(planned.1.literals, value);
      && (forall i :: 0 <= i < |values| ==> LiteralKey(values[i], keyBits, hash).Ok?)
      && Searchable(cols, planned.2.column)
      && 1 <= |Dedup(KeysFor(values, keyBits, hash))| == planned.2.operands <= MAX_OPERANDS
  }

  /**
   The whole way: the client prepares the text and encrypts its values, the server plans the template, every shard
   evaluates, and the client decodes. A query is answered exactly when it is answerable. The counts then add up to the
   number of records that satisfy the filter as typed, no other record comes back, and without collisions every one
   does; given that no record shares the key of a searched value it does not have, and that fewer records satisfy than
   the plaintext modulus.
   */
  method AnswerText(c: Crypto, x: Context, mix: nat -> nat, hash: seq<byte> -> nat, sql: string, value: int,
                    cols: seq<Column>, shards: seq<seq<EpochStore.Row>>, hw: nat, ghost records: seq<seq<Record>>,
                    ghost m: Meaning)
      returns (r: Result<seq<Combining.BucketResult>>)
    requires Accepts(c) && ContextOf(c, x) && StoresShards(cols, records, shards, c.keyBits, c.recordBytes, hash)
    requires forall name :: m.env(name) == Int(value)
    ensures r.Ok? <==> Answerable(sql, value, cols, c.keyBits, hash)
    ensures r.Ok? ==> PlanOf(sql).Some? && PlanOf(sql).value.0.filter.Some?
    ensures r.Ok? ==>
              var (statement, p, plan) := PlanOf(sql).value;
              && ShardsApart(cols, plan.column, records, Searched(p.literals, value), c.keyBits, hash)
              && CountAll(statement.filter.value, cols, records, |records|, m) < x.t
              ==> Tells(statement.filter.value, cols, records, shards, m, r.value)
  {
    hide ShardsApart, Tells, CountAll, StoresShards, PlanOf, LiteralKey, ContextOf, Searched, Rank, Dedup, IsSearchable;
    var planned := PlanText(sql);
    if planned.Err? {
      return Err(planned.error);
    }
    var (plan, literals) := planned.value;
    var keys := EncodeLiterals(Searched(literals, value), c.keyBits, hash);
    if keys.Err? {
      return Err(keys.error);
    }
    assert keys.value == KeysFor(Searched(literals, value), c.keyBits, hash);
    var index := IndexOf(cols, plan.column);
    if index.None? {
      return Err(InvalidArgument);
    }
    var rank := SearchableRank(cols, index.value);
    if rank.None? {
      return Err(InvalidArgument);
    }
    hide IndexOf, Accepts;
    PlanIsPlanned(sql);
    ghost var (statement, p, _) := PlanOf(sql).value;
    r := AnswerTables(c, x, mix, plan, keys.value, cols, index.value, rank.value, shards, hw, records, hash, sql,
                      Tokens(TrimStatement(sql)).value, statement, p, value, m);
  }
}
