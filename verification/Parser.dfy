/**
 The SELECT grammar: a parser as functions of the words and a cursor, and the recursive-descent parser proved against
 it.
 */
module Parser {
  import opened Base
  import opened Tokenizer

  // ---- syntax trees -------------------------------------------------------

  datatype Value = Text(text: string) | Int(number: int)

  /** A bound parameter, or a literal that the client has not lifted out yet. */
  datatype Param = Bound(name: string) | Literal(value: Value)

  datatype CompareOp = CmpEq | CmpNe | CmpLt | CmpLe | CmpGt | CmpGe

  datatype Pred =
    | Compare(column: string, op: CompareOp, param: Param)
    | In(column: string, params: seq<Param>)
    | Like(column: string, param: Param)
    | Between(column: string, low: Param, high: Param)
    | And(left: Pred, right: Pred)
    | Or(left: Pred, right: Pred)

  datatype OrderItem = OrderItem(column: string, descending: bool)

  datatype Projection = All | CountStar | Columns(names: seq<string>, aliases: seq<string>)

  datatype Statement = Statement(
    distinct: bool, projection: Projection, table: string, filter: Option<Pred>,
    orderBy: seq<OrderItem>, limit: Option<nat>, offset: Option<nat>)

  // ---- reading words ------------------------------------------------------

  /** What was read, and the cursor behind it; none for a syntax error. */
  type Parsed<+T> = Option<(T, nat)>

  const MAX_INT64: nat := 0x7FFF_FFFF_FFFF_FFFF
  const MAX_UINT64: nat := 0xFFFF_FFFF_FFFF_FFFF

  function Number(digits: string): (n: nat)
    requires forall i :: 0 <= i < |digits| ==> IsDigit(digits[i])
  {
    if digits == "" then 0
    else
      assert IsDigit(digits[|digits| - 1]);
      10 * Number(digits[..|digits| - 1]) + (digits[|digits| - 1] as int - '0' as int)
  }

  /** The number a literal stands for, if it is one and fits. */
  function Atoi(text: string, max: nat): (r: Option<nat>) {
    if text != "" && (forall i :: 0 <= i < |text| ==> IsDigit(text[i]))
        && Number(text) <= max then Some(Number(text)) else None
  }

  function At(words: seq<Word>, pos: nat): (k: Kind) {
    if pos < |words| then words[pos].kind else End
  }

  function Skip(words: seq<Word>, pos: nat, kind: Kind): (pos': nat) {
    if At(words, pos) == kind then pos + 1 else pos
  }

  /** A result lies strictly ahead of where it was asked for, and inside the text. */
  predicate Ahead<T>(words: seq<Word>, pos: nat, r: Parsed<T>) {
    r.Some? ==> pos < r.value.1 <= |words|
  }

  function ParseIdentifier(words: seq<Word>, pos: nat): (r: Parsed<string>)
    ensures Ahead(words, pos, r)
  {
    if At(words, pos) == Identifier then Some((words[pos].text, pos + 1)) else None
  }

  function ParseCount(words: seq<Word>, pos: nat): (r: Parsed<nat>)
    ensures Ahead(words, pos, r)
  {
    if At(words, pos) == NumberLiteral then
      match Atoi(words[pos].text, MAX_UINT64) case Some(n) => Some((n, pos + 1)) case None => None
    else None
  }

  function ParseParam(words: seq<Word>, pos: nat): (r: Parsed<Param>)
    ensures Ahead(words, pos, r)
  {
    match At(words, pos)
    case StringLiteral => Some((Literal(Text(words[pos].text)), pos + 1))
    case NumberLiteral =>
      (match Atoi(words[pos].text, MAX_INT64) case Some(n) => Some((Literal(Int(n)), pos + 1)) case None => None)
    case Parameter => Some((Bound(words[pos].text), pos + 1))
    case _ => None
  }

  /** (',' parameter)* */
  function ParseParams(words: seq<Word>, pos: nat, params: seq<Param>): (r: Parsed<seq<Param>>)
    requires pos <= |words|
    ensures r.Some? ==> pos <= r.value.1 <= |words|
    decreases |words| - pos
  {
    if At(words, pos) == Comma then
      match ParseParam(words, pos + 1)
      case None => None
      case Some(p) => ParseParams(words, p.1, params + [p.0])
    else Some((params, pos))
  }

  function ParseIn(words: seq<Word>, pos: nat, column: string): (r: Parsed<Pred>)
    ensures Ahead(words, pos, r)
  {
    if At(words, pos) != LParen then None
    else match ParseParam(words, pos + 1)
      case None => None
      case Some(first) =>
        match ParseParams(words, first.1, [first.0])
        case None => None
        case Some(all) => if At(words, all.1) == RParen then Some((In(column, all.0), all.1 + 1)) else None
  }

  function ParseBetween(words: seq<Word>, pos: nat, column: string): (r: Parsed<Pred>)
    ensures Ahead(words, pos, r)
  {
    match ParseParam(words, pos)
    case None => None
    case Some(low) =>
      if At(words, low.1) != KwAnd then None
      else match ParseParam(words, low.1 + 1)
        case None => None
        case Some(high) => Some((Between(column, low.0, high.0), high.1))
  }

  function OpOf(kind: Kind): (op: Option<CompareOp>) {
    match kind
    case OpEq => Some(CmpEq)
    case OpNe => Some(CmpNe)
    case OpLt => Some(CmpLt)
    case OpLe => Some(CmpLe)
    case OpGt => Some(CmpGt)
    case OpGe => Some(CmpGe)
    case _ => None
  }

  function ParseCompare(words: seq<Word>, pos: nat, column: string): (r: Parsed<Pred>)
    ensures Ahead(words, pos, r)
  {
    match OpOf(At(words, pos))
    case None => None
    case Some(op) =>
      match ParseParam(words, pos + 1)
      case None => None
      case Some(p) => Some((Compare(column, op, p.0), p.1))
  }

  function ParseLike(words: seq<Word>, pos: nat, column: string): (r: Parsed<Pred>)
    ensures Ahead(words, pos, r)
  {
    match ParseParam(words, pos) case None => None case Some(p) => Some((Like(column, p.0), p.1))
  }

  /** What is said of a column. */
  function ParseOperation(words: seq<Word>, pos: nat, column: string): (r: Parsed<Pred>)
    ensures Ahead(words, pos, r)
  {
    if At(words, pos) == KwIn then ParseIn(words, pos + 1, column)
    else if At(words, pos) == KwLike then ParseLike(words, pos + 1, column)
    else if At(words, pos) == KwBetween then ParseBetween(words, pos + 1, column)
    else ParseCompare(words, pos, column)
  }

  function ParseComparison(words: seq<Word>, pos: nat): (r: Parsed<Pred>)
    ensures Ahead(words, pos, r)
  {
    match ParseIdentifier(words, pos) case None => None case Some(column) => ParseOperation(words, column.1, column.0)
  }

  /** (AND comparison)*, to the left. */
  function ParseAnds(words: seq<Word>, pos: nat, node: Pred): (r: Parsed<Pred>)
    requires pos <= |words|
    ensures r.Some? ==> pos <= r.value.1 <= |words|
    decreases |words| - pos
  {
    if At(words, pos) == KwAnd then
      match ParseComparison(words, pos + 1)
      case None => None
      case Some(right) => ParseAnds(words, right.1, And(node, right.0))
    else Some((node, pos))
  }

  function ParseOrTerm(words: seq<Word>, pos: nat): (r: Parsed<Pred>)
    ensures Ahead(words, pos, r)
  {
    match ParseComparison(words, pos) case None => None case Some(left) => ParseAnds(words, left.1, left.0)
  }

  /** (OR or_term)*, to the left. */
  function ParseOrs(words: seq<Word>, pos: nat, node: Pred): (r: Parsed<Pred>)
    requires pos <= |words|
    ensures r.Some? ==> pos <= r.value.1 <= |words|
    decreases |words| - pos
  {
    if At(words, pos) == KwOr then
      match ParseOrTerm(words, pos + 1)
      case None => None
      case Some(right) => ParseOrs(words, right.1, Or(node, right.0))
    else Some((node, pos))
  }

  function ParsePredicate(words: seq<Word>, pos: nat): (r: Parsed<Pred>)
    ensures Ahead(words, pos, r)
  {
    match ParseOrTerm(words, pos) case None => None case Some(left) => ParseOrs(words, left.1, left.0)
  }

  /** A column and the name it is shown under. */
  function ParseColumn(words: seq<Word>, pos: nat): (r: Parsed<(string, string)>)
    ensures Ahead(words, pos, r)
  {
    match ParseIdentifier(words, pos)
    case None => None
    case Some(name) =>
      if At(words, name.1) != KwAs then Some(((name.0, name.0), name.1))
      else match ParseIdentifier(words, name.1 + 1)
        case None => None
        case Some(alias) => Some(((name.0, alias.0), alias.1))
  }

  /** proj_col (',' proj_col)* */
  function ParseColumns(words: seq<Word>, pos: nat, names: seq<string>, aliases: seq<string>): (r: Parsed<Projection>)
    ensures Ahead(words, pos, r)
    decreases |words| - pos
  {
    match ParseColumn(words, pos)
    case None => None
    case Some(c) =>
      var names', aliases' := names + [c.0.0], aliases + [c.0.1];
      if At(words, c.1) == Comma then ParseColumns(words, c.1 + 1, names', aliases')
      else Some((Columns(names', aliases'), c.1))
  }

  function ParseOrderItem(words: seq<Word>, pos: nat): (r: Parsed<OrderItem>)
    ensures Ahead(words, pos, r)
  {
    match ParseIdentifier(words, pos)
    case None => None
    case Some(name) =>
      var descending := At(words, name.1) == KwDesc;
      Some((OrderItem(name.0, descending), if descending then name.1 + 1 else Skip(words, name.1, KwAsc)))
  }

  /** order_item (',' order_item)* */
  function ParseOrderBy(words: seq<Word>, pos: nat, items: seq<OrderItem>): (r: Parsed<seq<OrderItem>>)
    ensures Ahead(words, pos, r)
    decreases |words| - pos
  {
    match ParseOrderItem(words, pos)
    case None => None
    case Some(item) =>
      var items' := items + [item.0];
      if At(words, item.1) == Comma then ParseOrderBy(words, item.1 + 1, items') else Some((items', item.1))
  }

  function ParseProjection(words: seq<Word>, pos: nat, distinct: bool): (r: Parsed<Projection>)
    ensures Ahead(words, pos, r)
  {
    if At(words, pos) == KwCount then
      if !distinct && At(words, pos + 1) == LParen && At(words, pos + 2) == Star && At(words, pos + 3) == RParen
      then Some((CountStar, pos + 4)) else None
    else if At(words, pos) == Star then Some((All, pos + 1))
    else ParseColumns(words, pos, [], [])
  }

  function ParseWhere(words: seq<Word>, pos: nat): (r: Parsed<Option<Pred>>) {
    if At(words, pos) == KwWhere then
      match ParsePredicate(words, pos + 1) case None => None case Some(p) => Some((Some(p.0), p.1))
    else Some((None, pos))
  }

  function ParseOrder(words: seq<Word>, pos: nat): (r: Parsed<seq<OrderItem>>) {
    if At(words, pos) == KwOrder then
      if At(words, pos + 1) == KwBy then ParseOrderBy(words, pos + 2, []) else None
    else Some(([], pos))
  }

  function ParseLimit(words: seq<Word>, pos: nat): (r: Parsed<Option<nat>>) {
    if At(words, pos) == KwLimit then
      match ParseCount(words, pos + 1)
      case None => None
      case Some(n) => if n.0 == 0 then None else Some((Some(n.0), n.1))
    else Some((None, pos))
  }

  function ParseOffset(words: seq<Word>, pos: nat): (r: Parsed<Option<nat>>) {
    if At(words, pos) == KwOffset then
      match ParseCount(words, pos + 1) case None => None case Some(n) => Some((Some(n.0), n.1))
    else Some((None, pos))
  }

  function ParseFrom(words: seq<Word>, pos: nat): (r: Parsed<string>)
    ensures Ahead(words, pos, r)
  {
    if At(words, pos) != KwFrom then None else ParseIdentifier(words, pos + 1)
  }

  /** SELECT [DISTINCT] projection FROM table: what comes before the filter. */
  function ParseHead(words: seq<Word>): (r: Parsed<(bool, Projection, string)>) {
    if At(words, 0) != KwSelect then None
    else
      var distinct := At(words, 1) == KwDistinct;
      match ParseProjection(words, Skip(words, 1, KwDistinct), distinct)
      case None => None
      case Some(projection) =>
        match ParseFrom(words, projection.1)
        case None => None
        case Some(table) => Some(((distinct, projection.0, table.0), table.1))
  }

  /** [ORDER BY ...] [LIMIT n] [OFFSET m] and the end: what comes after the filter. */
  function ParseTail(words: seq<Word>, pos: nat): (r: Option<(seq<OrderItem>, Option<nat>, Option<nat>)>) {
    match ParseOrder(words, pos)
    case None => None
    case Some(order) =>
      match ParseLimit(words, order.1)
      case None => None
      case Some(limit) =>
        match ParseOffset(words, limit.1)
        case None => None
        case Some(offset) =>
          if offset.1 < |words| && At(words, offset.1) == End then Some((order.0, limit.0, offset.0)) else None
  }

  function ParseStatement(words: seq<Word>): (r: Option<Statement>) {
    match ParseHead(words)
    case None => None
    case Some(head) =>
      match ParseWhere(words, head.1)
      case None => None
      case Some(filter) =>
        match ParseTail(words, filter.1)
        case None => None
        case Some(tail) => Some(Statement(head.0.0, head.0.1, head.0.2, filter.0, tail.0, tail.1, tail.2))
  }

  // ---- recursive descent --------------------------------------------------

  predicate Agrees<T(==)>(spec: Parsed<T>, r: Option<T>, pos: nat) {
    match spec case None => r.None? case Some(p) => r == Some(p.0) && pos == p.1
  }

  /** A cursor over words that end in the end marker; no method moves it past that marker. */
  class Cursor {
    const words: seq<Word>
    var pos: nat

    ghost predicate Valid()
      reads this
    {
      pos < |words| && words[|words| - 1].kind == End
    }

    constructor (words: seq<Word>)
      requires words != [] && words[|words| - 1].kind == End
      ensures this.words == words && pos == 0 && Valid()
    {
      this.words := words;
      pos := 0;
    }

    /** Consumes the word if it is of that kind; the end marker never is. */
    method Match(kind: Kind) returns (ok: bool)
      requires Valid() && kind != End
      modifies this
      ensures Valid() && ok == (At(words, old(pos)) == kind) && pos == Skip(words, old(pos), kind)
    {
      ok := words[pos].kind == kind;
      if ok {
        pos := pos + 1;
      }
    }

    method IdentifierName() returns (r: Option<string>)
      requires Valid()
      modifies this
      ensures Valid() && Agrees(ParseIdentifier(words, old(pos)), r, pos)
    {
      if words[pos].kind != Kind.Identifier {
        return None;
      }
      r := Some(words[pos].text);
      pos := pos + 1;
    }

    method Count() returns (r: Option<nat>)
      requires Valid()
      modifies this
      ensures Valid() && Agrees(ParseCount(words, old(pos)), r, pos)
    {
      if words[pos].kind != NumberLiteral {
        return None;
      }
      r := Atoi(words[pos].text, MAX_UINT64);
      pos := pos + 1;
    }

    method Param() returns (r: Option<Param>)
      requires Valid()
      modifies this
      ensures Valid() && Agrees(ParseParam(words, old(pos)), r, pos)
    {
      var w := words[pos];
      if w.kind == StringLiteral {
        pos := pos + 1;
        return Some(Literal(Text(w.text)));
      }
      if w.kind == NumberLiteral {
        pos := pos + 1;
        var n := Atoi(w.text, MAX_INT64);
        return if n.Some? then Some(Literal(Int(n.value))) else None;
      }
      if w.kind != Parameter {
        return None;
      }
      pos := pos + 1;
      r := Some(Bound(w.text));
    }

    method InList(column: string) returns (r: Option<Pred>)
      requires Valid()
      modifies this
      ensures Valid() && Agrees(ParseIn(words, old(pos), column), r, pos)
    {
      var open := Match(LParen);
      if !open {
        return None;
      }
      var first := Param();
      if first.None? {
        return None;
      }
      ghost var rest := ParseParams(words, pos, [first.value]);
      var params := [first.value];
      var more := Match(Comma);
      while more
        invariant Valid()
        invariant more ==> pos > 0 && At(words, pos - 1) == Comma && rest == ParseParams(words, pos - 1, params)
        invariant !more ==> rest == Some((params, pos))
        decreases |words| - pos, more
      {
        var next := Param();
        if next.None? {
          return None;
        }
        params := params + [next.value];
        more := Match(Comma);
      }
      var close := Match(RParen);
      if !close {
        return None;
      }
      r := Some(In(column, params));
    }

    method BetweenBounds(column: string) returns (r: Option<Pred>)
      requires Valid()
      modifies this
      ensures Valid() && Agrees(ParseBetween(words, old(pos), column), r, pos)
    {
      var low := Param();
      if low.None? {
        return None;
      }
      var sep := Match(KwAnd);
      if !sep {
        return None;
      }
      var high := Param();
      if high.None? {
        return None;
      }
      r := Some(Between(column, low.value, high.value));
    }

    method Comparison() returns (r: Option<Pred>)
      requires Valid()
      modifies this
      ensures Valid() && Agrees(ParseComparison(words, old(pos)), r, pos)
    {
      var column := IdentifierName();
      if column.None? {
        return None;
      }
      var isIn := Match(KwIn);
      if isIn {
        r := InList(column.value);
        return;
      }
      var isBetween := Match(KwBetween);
      if isBetween {
        r := BetweenBounds(column.value);
        return;
      }
      var isLike := Match(KwLike);
      if isLike {
        var pattern := Param();
        return if pattern.Some? then Some(Like(column.value, pattern.value)) else None;
      }
      var op := OpOf(words[pos].kind);
      if op.None? {
        return None;
      }
      pos := pos + 1;
      var p := Param();
      r := if p.Some? then Some(Compare(column.value, op.value, p.value)) else None;
    }

    method OrTerm() returns (r: Option<Pred>)
      requires Valid()
      modifies this
      ensures Valid() && Agrees(ParseOrTerm(words, old(pos)), r, pos)
    {
      hide ParseComparison;
      var left := Comparison();
      if left.None? {
        return None;
      }
      var node := left.value;
      ghost var rest := ParseAnds(words, pos, node);
      var more := Match(KwAnd);
      while more
        invariant Valid()
        invariant more ==> pos > 0 && At(words, pos - 1) == KwAnd && rest == ParseAnds(words, pos - 1, node)
        invariant !more ==> rest == Some((node, pos))
        decreases |words| - pos, more
      {
        var right := Comparison();
        if right.None? {
          return None;
        }
        node := And(node, right.value);
        more := Match(KwAnd);
      }
      r := Some(node);
    }

    method Predicate() returns (r: Option<Pred>)
      requires Valid()
      modifies this
      ensures Valid() && Agrees(ParsePredicate(words, old(pos)), r, pos)
    {
      hide ParseOrTerm;
      var left := OrTerm();
      if left.None? {
        return None;
      }
      var node := left.value;
      ghost var rest := ParseOrs(words, pos, node);
      var more := Match(KwOr);
      while more
        invariant Valid()
        invariant more ==> pos > 0 && At(words, pos - 1) == KwOr && rest == ParseOrs(words, pos - 1, node)
        invariant !more ==> rest == Some((node, pos))
        decreases |words| - pos, more
      {
        var right := OrTerm();
        if right.None? {
          return None;
        }
        node := Or(node, right.value);
        more := Match(KwOr);
      }
      r := Some(node);
    }

    method Column() returns (r: Option<(string, string)>)
      requires Valid()
      modifies this
      ensures Valid() && Agrees(ParseColumn(words, old(pos)), r, pos)
    {
      var name := IdentifierName();
      if name.None? {
        return None;
      }
      var aliased := Match(KwAs);
      if !aliased {
        return Some((name.value, name.value));
      }
      var alias := IdentifierName();
      r := if alias.Some? then Some((name.value, alias.value)) else None;
    }

    method ColumnList() returns (r: Option<Projection>)
      requires Valid()
      modifies this
      ensures Valid() && Agrees(ParseColumns(words, old(pos), [], []), r, pos)
    {
      hide ParseColumn;
      var names: seq<string>, aliases: seq<string> := [], [];
      var more := true;
      while more
        invariant Valid()
        invariant more ==> ParseColumns(words, old(pos), [], []) == ParseColumns(words, pos, names, aliases)
        invariant !more ==> ParseColumns(words, old(pos), [], []) == Some((Columns(names, aliases), pos))
        decreases |words| - pos, more
      {
        var c := Column();
        if c.None? {
          return None;
        }
        names, aliases := names + [c.value.0], aliases + [c.value.1];
        more := Match(Comma);
      }
      r := Some(Columns(names, aliases));
    }

    method Order() returns (r: Option<OrderItem>)
      requires Valid()
      modifies this
      ensures Valid() && Agrees(ParseOrderItem(words, old(pos)), r, pos)
    {
      var name := IdentifierName();
      if name.None? {
        return None;
      }
      var descending := Match(KwDesc);
      if !descending {
        var _ := Match(KwAsc);
      }
      r := Some(OrderItem(name.value, descending));
    }

    method OrderList() returns (r: Option<seq<OrderItem>>)
      requires Valid()
      modifies this
      ensures Valid() && Agrees(ParseOrderBy(words, old(pos), []), r, pos)
    {
      hide ParseOrderItem;
      var items: seq<OrderItem> := [];
      var more := true;
      while more
        invariant Valid()
        invariant more ==> ParseOrderBy(words, old(pos), []) == ParseOrderBy(words, pos, items)
        invariant !more ==> ParseOrderBy(words, old(pos), []) == Some((items, pos))
        decreases |words| - pos, more
      {
        var item := Order();
        if item.None? {
          return None;
        }
        items := items + [item.value];
        more := Match(Comma);
      }
      r := Some(items);
    }

    method ProjectionClause(distinct: bool) returns (r: Option<Projection>)
      requires Valid()
      modifies this
      ensures Valid() && Agrees(ParseProjection(words, old(pos), distinct), r, pos)
    {
      var isCount := Match(KwCount);
      if isCount {
        if distinct {
          return None;
        }
        var open := Match(LParen);
        if !open {
          return None;
        }
        var star := Match(Star);
        if !star {
          return None;
        }
        var close := Match(RParen);
        return if close then Some(CountStar) else None;
      }
      var all := Match(Star);
      if all {
        return Some(All);
      }
      r := ColumnList();
    }

    method Head() returns (r: Option<(bool, Projection, string)>)
      requires Valid() && pos == 0
      modifies this
      ensures Valid() && Agrees(ParseHead(words), r, pos)
    {
      hide ParseProjection;
      var select := Match(KwSelect);
      if !select {
        return None;
      }
      var distinct := Match(KwDistinct);
      var projection := ProjectionClause(distinct);
      if projection.None? {
        return None;
      }
      var from := Match(KwFrom);
      if !from {
        return None;
      }
      var table := IdentifierName();
      r := if table.Some? then Some((distinct, projection.value, table.value)) else None;
    }

    method OrderClause() returns (r: Option<seq<OrderItem>>)
      requires Valid()
      modifies this
      ensures Valid() && Agrees(ParseOrder(words, old(pos)), r, pos)
    {
      hide ParseOrderBy;
      var ordered := Match(KwOrder);
      if !ordered {
        return Some([]);
      }
      var byNext := Match(KwBy);
      if !byNext {
        return None;
      }
      r := OrderList();
    }

    /** LIMIT n with n at least 1, or nothing. */
    method LimitClause() returns (r: Option<Option<nat>>)
      requires Valid()
      modifies this
      ensures Valid() && Agrees(ParseLimit(words, old(pos)), r, pos)
    {
      hide ParseCount;
      var limited := Match(KwLimit);
      if !limited {
        return Some(None);
      }
      var n := Count();
      r := if n.None? || n.value == 0 then None else Some(n);
    }

    method OffsetClause() returns (r: Option<Option<nat>>)
      requires Valid()
      modifies this
      ensures Valid() && Agrees(ParseOffset(words, old(pos)), r, pos)
    {
      hide ParseCount;
      var skipped := Match(KwOffset);
      if !skipped {
        return Some(None);
      }
      var n := Count();
      r := if n.None? then None else Some(n);
    }

    method Tail() returns (r: Option<(seq<OrderItem>, Option<nat>, Option<nat>)>)
      requires Valid()
      modifies this
      ensures r == ParseTail(words, old(pos))
    {
      hide ParseOrder, ParseLimit, ParseOffset;
      var order := OrderClause();
      if order.None? {
        return None;
      }
      var limit := LimitClause();
      if limit.None? {
        return None;
      }
      var offset := OffsetClause();
      if offset.None? {
        return None;
      }
      r := if words[pos].kind == End then Some((order.value, limit.value, offset.value)) else None;
    }

    method StatementClause() returns (r: Option<Statement>)
      requires Valid() && pos == 0
      modifies this
      ensures r == ParseStatement(words)
    {
      hide ParseHead, ParseTail, ParsePredicate;
      var head := Head();
      if head.None? {
        return None;
      }
      var filter: Option<Pred> := None;
      var filtered := Match(KwWhere);
      if filtered {
        filter := Predicate();
        if filter.None? {
          return None;
        }
      }
      var tail := Tail();
      if tail.None? {
        return None;
      }
      r := Some(Statement(head.value.0, head.value.1, head.value.2, filter, tail.value.0, tail.value.1, tail.value.2));
    }
  }
}
