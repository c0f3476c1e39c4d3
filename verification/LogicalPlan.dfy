/** From a parsed filter to one match: what the plan asks the engine for is what the filter means. */
module LogicalPlan {
  import opened Base
  import opened Tokenizer
  import opened Lifting
  import opened Parser
  import opened LiftedStatement
  import opened ClientQuery
  import Indicator
  import QueryMeaning

  // ---- what a filter means ------------------------------------------------

  /** A row, values for the bound parameters, and any ordering and pattern matching of values. */
  datatype Meaning = Meaning(row: string -> Value, env: string -> Value, less: (Value, Value) -> bool,
      like: (Value, Value) -> bool)

  function ParamValue(p: Param, m: Meaning): (v: Value) {
    match p case Bound(name) => m.env(name) case Literal(v) => v
  }

  predicate Compares(op: CompareOp, x: Value, y: Value, m: Meaning) {
    match op
    case CmpEq => x == y
    case CmpNe => x != y
    case CmpLt => m.less(x, y)
    case CmpLe => m.less(x, y) || x == y
    case CmpGt => m.less(y, x)
    case CmpGe => m.less(y, x) || x == y
  }

  predicate Eval(p: Pred, m: Meaning) {
    match p
    case Compare(column, op, param) => Compares(op, m.row(column), ParamValue(param, m), m)
    case In(column, params) => exists i :: 0 <= i < |params| && m.row(column) == ParamValue(params[i], m)
    case Like(column, param) => m.like(m.row(column), ParamValue(param, m))
    case Between(column, low, high) =>
      !m.less(m.row(column), ParamValue(low, m)) && !m.less(ParamValue(high, m), m.row(column))
    case And(left, right) => Eval(left, m) && Eval(right, m)
    case Or(left, right) => Eval(left, m) || Eval(right, m)
  }

  /** The values of a filter, left to right. */
  function ParamsOf(p: Pred): (ps: seq<Param>) {
    match p
    case Compare(_, _, param) => [param]
    case In(_, params) => params
    case Like(_, param) => [param]
    case Between(_, low, high) => [low, high]
    case And(left, right) => ParamsOf(left) + ParamsOf(right)
    case Or(left, right) => ParamsOf(left) + ParamsOf(right)
  }

  // ---- planning -----------------------------------------------------------

  /** The match the engine runs: a column, '=' or '<>', and the names of its operands. */
  datatype Match = Match(column: string, op: CompareOp, names: seq<string>)

  /** Flattens an OR of equalities on one column; column and names are what was collected before. */
  function Collect(p: Pred, column: string, names: seq<string>): (r: Result<Match>)
    ensures r.Ok? ==> r.value.op == CmpEq
  {
    match p
    case Compare(c, op, param) =>
      if op != CmpEq then Err(Unimplemented)
      else if param.Literal? then Err(InvalidArgument)
      else if column != "" && column != c then Err(Unimplemented)
      else Ok(Match(c, CmpEq, names + [param.name]))
    case Or(left, right) =>
      (match Collect(left, column, names)
       case Err(e) => Err(e)
       case Ok(l) => Collect(right, l.column, l.names))
    case _ => Err(Unimplemented)
  }

  function NamesOf(params: seq<Param>): (names: seq<string>)
    requires forall i :: 0 <= i < |params| ==> params[i].Bound?
  {
    seq(|params|, i requires 0 <= i < |params| => params[i].name)
  }

  function PlanMatch(p: Pred): (r: Result<Match>) {
    match p
    case Compare(c, op, param) =>
      if op != CmpEq && op != CmpNe then Err(Unimplemented)
      else if param.Literal? then Err(InvalidArgument)
      else Ok(Match(c, op, [param.name]))
    case In(c, params) =>
      if params == [] || exists i :: 0 <= i < |params| && params[i].Literal? then Err(InvalidArgument)
      else Ok(Match(c, CmpEq, NamesOf(params)))
    case Or(_, _) => Collect(p, "", [])
    case _ => Err(Unimplemented)
  }

  datatype Plan = Plan(
    table: string, projection: Projection, column: string, op: CompareOp, parameter: string,
    operands: nat, limit: Option<nat>, offset: Option<nat>)

  predicate ProjectionOk(projection: Projection) {
    projection.Columns? ==>
      && projection.names != [] && "" !in projection.names
      && forall i, j :: 0 <= i < j < |projection.names| ==> projection.names[i] != projection.names[j]
  }

  function BuildPlan(s: Statement): (r: Result<Plan>) {
    if s.filter.None? then Err(InvalidArgument)
    else
      match PlanMatch(s.filter.value)
      case Err(e) => Err(e)
      case Ok(m) =>
        if s.table == "" || !ProjectionOk(s.projection) || m.column == "" || m.names == [] || m.names[0] == ""
        then Err(InvalidArgument)
        else Ok(Plan(s.table, s.projection, m.column, m.op, m.names[0], |m.names|, s.limit, s.offset))
  }

  // ---- the plan means the filter ------------------------------------------

  ghost predicate MatchMeans(m: Match, x: Value, env: string -> Value) {
    if m.op == CmpNe then forall i :: 0 <= i < |m.names| ==> x != env(m.names[i])
    else exists i :: 0 <= i < |m.names| && x == env(m.names[i])
  }

  /** The names are those of the filter's values, all of them bound. */
  ghost predicate AreNames(names: seq<string>, params: seq<Param>) {
    |names| == |params| && forall i :: 0 <= i < |params| ==> params[i] == Bound(names[i])
  }

  /** Some name collected since the first `from` has the row's value. */
  ghost predicate SomeName(names: seq<string>, from: nat, x: Value, env: string -> Value) {
    exists i :: from <= i < |names| && x == env(names[i])
  }

  /** Identifiers are never empty. */
  predicate NamedColumns(p: Pred) {
    match p
    case And(left, right) => NamedColumns(left) && NamedColumns(right)
    case Or(left, right) => NamedColumns(left) && NamedColumns(right)
    case _ => p.column != ""
  }

  ghost predicate Collected(p: Pred, column: string, names: seq<string>, r: Match, m: Meaning) {
    && r.op == CmpEq && r.column != "" && (column == "" || r.column == column)
    && names <= r.names && AreNames(r.names[|names|..], ParamsOf(p))
    && (Eval(p, m) <==> SomeName(r.names, |names|, m.row(r.column), m.env))
  }

  lemma {:induction false} OneCollected(c: string, name: string, column: string, names: seq<string>, m: Meaning)
    requires c != "" && (column == "" || column == c)
    ensures Collected(Compare(c, CmpEq, Bound(name)), column, names, Match(c, CmpEq, names + [name]), m)
  {
    var all := names + [name];
    assert all[|names|] == name && all[|names|..] == [name];
  }

  lemma {:induction false} TwoCollected(left: Pred, right: Pred, column: string, names: seq<string>, l: Match, r: Match,
                                        m: Meaning)
    requires Collected(left, column, names, l, m) && Collected(right, l.column, l.names, r, m)
    ensures Collected(Or(left, right), column, names, r, m)
  {
    assert r.names[|names|..] == l.names[|names|..] + r.names[|l.names|..];
    assert forall i :: 0 <= i < |l.names| ==> r.names[i] == l.names[i];
    if i :| |names| <= i < |r.names| && m.row(r.column) == m.env(r.names[i]) {
      assert i < |l.names| ==> m.row(r.column) == m.env(l.names[i]);
    }
  }

  lemma {:induction false} CollectMeans(p: Pred, column: string, names: seq<string>, m: Meaning)
    requires NamedColumns(p) && Collect(p, column, names).Ok?
    ensures Collected(p, column, names, Collect(p, column, names).value, m)
  {
    hide Collected;
    match p
    case Compare(c, op, param) => OneCollected(c, param.name, column, names, m);
    case Or(left, right) =>
      var l := Collect(left, column, names).value;
      CollectMeans(left, column, names, m);
      CollectMeans(right, l.column, l.names, m);
      TwoCollected(left, right, column, names, l, Collect(p, column, names).value, m);
    case _ =>
  }

  /** The operands are the filter's values left to right, and the filter holds exactly when the match does. */
  lemma {:induction false} MatchMeansFilter(p: Pred, m: Meaning)
    requires NamedColumns(p) && PlanMatch(p).Ok?
    ensures var r := PlanMatch(p).value;
            && AreNames(r.names, ParamsOf(p)) && r.names != [] && (r.op == CmpNe ==> |r.names| == 1)
            && (Eval(p, m) <==> MatchMeans(r, m.row(r.column), m.env))
  {
    match p
    case Compare(c, op, param) => assert MatchMeans(Match(c, op, [param.name]), m.row(c), m.env) <==> Eval(p, m) by {
      assert [param.name][0] == param.name;
    }
    case In(c, params) =>
      var names := NamesOf(params);
      if i :| 0 <= i < |params| && m.row(c) == ParamValue(params[i], m) {
        assert m.row(c) == m.env(names[i]);
      }
      if i :| 0 <= i < |names| && m.row(c) == m.env(names[i]) {
        assert m.row(c) == ParamValue(params[i], m);
      }
    case Or(left, right) =>
      CollectMeans(p, "", [], m);
      var r := Collect(p, "", []).value;
      assert r.names[0..] == r.names;
      NonEmptyParams(p);
    case _ =>
  }

  lemma {:induction false} NonEmptyParams(p: Pred)
    requires PlanMatch(p).Ok? || (exists c, n :: Collect(p, c, n).Ok?)
    ensures ParamsOf(p) != []
  {
    match p
    case Or(left, right) =>
      if PlanMatch(p).Ok? {
        assert Collect(left, "", []).Ok?;
      } else {
        var c, n :| Collect(p, c, n).Ok?;
        assert Collect(left, c, n).Ok?;
      }
      NonEmptyParams(left);
    case _ =>
  }

  // ---- lifting keeps the meaning ------------------------------------------

  /** The environment binds the parameter of every lifted value to that value. */
  ghost predicate Binds(env: string -> Value, values: seq<Value>, single: bool) {
    forall j :: 0 <= j < |values| ==> env(Name(single, j)) == values[j]
  }

  lemma {:induction false} LiftedParamMeans(p: Param, seen: seq<Value>, single: bool, m: Meaning)
    requires Binds(m.env, LiftParam(p, seen, single).1, single)
    ensures ParamValue(LiftParam(p, seen, single).0, m) == ParamValue(p, m)
    ensures Binds(m.env, seen, single)
  {
    hide Name;
    assert forall j :: 0 <= j < |seen| ==> LiftParam(p, seen, single).1[j] == seen[j];
  }

  lemma {:induction false} LiftedParamsMean(ps: seq<Param>, seen: seq<Value>, single: bool, m: Meaning)
    requires Binds(m.env, LiftParams(ps, seen, single).1, single)
    ensures forall i :: 0 <= i < |ps| ==> ParamValue(LiftParams(ps, seen, single).0[i], m) == ParamValue(ps[i], m)
    ensures Binds(m.env, seen, single)
  {
    hide Binds, LiftParam, ParamValue;
    if ps != [] {
      var front := LiftParams(ps[..|ps| - 1], seen, single);
      LiftedParamMeans(ps[|ps| - 1], front.1, single, m);
      LiftedParamsMean(ps[..|ps| - 1], seen, single, m);
    }
  }

  /** The lifted filter means what the filter with its literals means. */
  lemma {:induction false} LiftingKeepsMeaning(p: Pred, seen: seq<Value>, single: bool, m: Meaning)
    requires Binds(m.env, LiftPred(p, seen, single).1, single)
    ensures Eval(LiftPred(p, seen, single).0, m) <==> Eval(p, m)
    ensures Binds(m.env, seen, single)
  {
    hide Binds, LiftParam, LiftParams, ParamValue, Compares;
    match p
    case Compare(_, _, param) => LiftedParamMeans(param, seen, single, m);
    case In(column, params) =>
      LiftedParamsMean(params, seen, single, m);
    case Like(_, param) => LiftedParamMeans(param, seen, single, m);
    case Between(_, low, high) =>
      LiftedParamMeans(high, LiftParam(low, seen, single).1, single, m);
      LiftedParamMeans(low, seen, single, m);
    case And(left, right) =>
      LiftingKeepsMeaning(right, LiftPred(left, seen, single).1, single, m);
      LiftingKeepsMeaning(left, seen, single, m);
    case Or(left, right) =>
      LiftingKeepsMeaning(right, LiftPred(left, seen, single).1, single, m);
      LiftingKeepsMeaning(left, seen, single, m);
  }

  // ---- filters come with named columns ------------------------------------

  ghost predicate NamedWords(words: seq<Word>) {
    forall i :: 0 <= i < |words| && words[i].kind == Identifier ==> words[i].text != ""
  }

  ghost predicate Named(r: Parsed<Pred>) {
    r.Some? ==> NamedColumns(r.value.0)
  }

  lemma {:induction false} NamedComparison(words: seq<Word>, pos: nat)
    requires NamedWords(words)
    ensures Named(ParseComparison(words, pos))
  {
    hide ParseParam, ParseParams, OpOf;
  }

  lemma {:induction false} NamedAnds(words: seq<Word>, pos: nat, node: Pred)
    requires NamedWords(words) && pos <= |words| && NamedColumns(node)
    ensures Named(ParseAnds(words, pos, node))
    decreases |words| - pos
  {
    hide ParseComparison, NamedWords;
    if At(words, pos) == KwAnd && ParseComparison(words, pos + 1).Some? {
      var right := ParseComparison(words, pos + 1).value;
      NamedComparison(words, pos + 1);
      NamedAnds(words, right.1, And(node, right.0));
    }
  }

  lemma {:induction false} NamedOrTerm(words: seq<Word>, pos: nat)
    requires NamedWords(words)
    ensures Named(ParseOrTerm(words, pos))
  {
    hide ParseComparison, NamedWords, ParseAnds;
    NamedComparison(words, pos);
    if ParseComparison(words, pos).Some? {
      NamedAnds(words, ParseComparison(words, pos).value.1, ParseComparison(words, pos).value.0);
    }
  }

  lemma {:induction false} NamedOrs(words: seq<Word>, pos: nat, node: Pred)
    requires NamedWords(words) && pos <= |words| && NamedColumns(node)
    ensures Named(ParseOrs(words, pos, node))
    decreases |words| - pos
  {
    hide ParseOrTerm, NamedWords;
    if At(words, pos) == KwOr && ParseOrTerm(words, pos + 1).Some? {
      var right := ParseOrTerm(words, pos + 1).value;
      NamedOrTerm(words, pos + 1);
      NamedOrs(words, right.1, Or(node, right.0));
    }
  }

  lemma {:induction false} NamedFilter(words: seq<Word>)
    requires NamedWords(words) && ParseStatement(words).Some? && ParseStatement(words).value.filter.Some?
    ensures NamedColumns(ParseStatement(words).value.filter.value)
  {
    hide ParseOrTerm, ParseOrs, NamedWords, ParseHead, ParseTail;
    var pos := ParseHead(words).value.1 + 1;
    NamedOrTerm(words, pos);
    if ParseOrTerm(words, pos).Some? {
      NamedOrs(words, ParseOrTerm(words, pos).value.1, ParseOrTerm(words, pos).value.0);
    }
  }

  lemma {:induction false} FirstIsNamed(s: string)
    requires s != ""
    ensures First(s).Lexed? && First(s).word.kind == Identifier ==> First(s).word.text != ""
  {
    hide Upper;
  }

  lemma {:induction false} LexIsNamed(s: string, at: nat)
    requires Lex(s, at).Some?
    ensures NamedWords(Plain(Lex(s, at).value))
    decreases |s|
  {
    hide First;
    if s != "" {
      FirstInRange(s);
      FirstIsNamed(s);
      match First(s)
      case Blank => LexIsNamed(s[1..], at + 1);
      case Lexed(w, n) =>
        LexIsNamed(s[n..], at + n);
        LexCons(s, at, w, n);
    }
  }

  lemma {:induction false} LiftKeepsNamed(p: Pred, seen: seq<Value>, single: bool)
    requires NamedColumns(p)
    ensures NamedColumns(LiftPred(p, seen, single).0)
  {
    hide LiftParam, LiftParams;
    match p
    case And(left, right) =>
      LiftKeepsNamed(left, seen, single);
      LiftKeepsNamed(right, LiftPred(left, seen, single).1, single);
    case Or(left, right) =>
      LiftKeepsNamed(left, seen, single);
      LiftKeepsNamed(right, LiftPred(left, seen, single).1, single);
    case _ =>
  }

  // ---- from the text to the match -----------------------------------------

  ghost predicate AllLiteral(ps: seq<Param>) {
    forall i :: 0 <= i < |ps| ==> ps[i].Literal?
  }

  ghost predicate AllLifted(ps: seq<Param>, from: nat, single: bool) {
    forall i :: 0 <= i < |ps| ==> ps[i] == Bound(Name(single, from + i))
  }

  lemma {:induction false} LiftedParamsInOrder(ps: seq<Param>, seen: seq<Value>, single: bool)
    requires AllLiteral(ps)
    ensures AllLifted(LiftParams(ps, seen, single).0, |seen|, single)
    ensures |LiftParams(ps, seen, single).1| == |seen| + |ps|
  {
    hide Name;
    if ps != [] {
      LiftedParamsInOrder(ps[..|ps| - 1], seen, single);
    }
  }

  lemma {:induction false} LiftedInOrder(p: Pred, seen: seq<Value>, single: bool)
    requires AllLiteral(ParamsOf(p))
    ensures AllLifted(ParamsOf(LiftPred(p, seen, single).0), |seen|, single)
    ensures |LiftPred(p, seen, single).1| == |seen| + |ParamsOf(p)|
    ensures |ParamsOf(LiftPred(p, seen, single).0)| == |ParamsOf(p)|
  {
    hide Name, AllLiteral, AllLifted;
    match p
    case And(left, right) =>
      SplitLiterals(ParamsOf(left), ParamsOf(right));
      LiftedInOrder(left, seen, single);
      LiftedInOrder(right, LiftPred(left, seen, single).1, single);
      JoinLifted(ParamsOf(LiftPred(left, seen, single).0),
          ParamsOf(LiftPred(right, LiftPred(left, seen, single).1, single).0), |seen|, single);
    case Or(left, right) =>
      SplitLiterals(ParamsOf(left), ParamsOf(right));
      LiftedInOrder(left, seen, single);
      LiftedInOrder(right, LiftPred(left, seen, single).1, single);
      JoinLifted(ParamsOf(LiftPred(left, seen, single).0),
          ParamsOf(LiftPred(right, LiftPred(left, seen, single).1, single).0), |seen|, single);
    case _ =>
      OneLiftedInOrder(p, seen, single);
  }

  lemma {:induction false} OneLiftedInOrder(p: Pred, seen: seq<Value>, single: bool)
    requires AllLiteral(ParamsOf(p)) && !p.And? && !p.Or?
    ensures AllLifted(ParamsOf(LiftPred(p, seen, single).0), |seen|, single)
    ensures |LiftPred(p, seen, single).1| == |seen| + |ParamsOf(p)|
    ensures |ParamsOf(LiftPred(p, seen, single).0)| == |ParamsOf(p)|
  {
    hide Name;
    match p
    case Compare(_, _, param) => assert ParamsOf(p)[0].Literal?;
    case Like(_, param) => assert ParamsOf(p)[0].Literal?;
    case Between(_, low, high) => assert ParamsOf(p)[0].Literal? && ParamsOf(p)[1].Literal?;
    case In(_, params) => LiftedParamsInOrder(params, seen, single);
  }

  lemma {:induction false} JoinLifted(a: seq<Param>, b: seq<Param>, from: nat, single: bool)
    requires AllLifted(a, from, single) && AllLifted(b, from + |a|, single)
    ensures AllLifted(a + b, from, single)
  {
    hide Name;
    forall i | 0 <= i < |a + b|
      ensures (a + b)[i] == Bound(Name(single, from + i))
    {
      if i >= |a| {
        assert (a + b)[i] == b[i - |a|];
      }
    }
  }

  lemma {:induction false} SplitLiterals(a: seq<Param>, b: seq<Param>)
    requires AllLiteral(a + b)
    ensures AllLiteral(a) && AllLiteral(b)
  {
    assert forall i :: 0 <= i < |a| ==> a[i] == (a + b)[i];
    assert forall i :: 0 <= i < |b| ==> b[i] == (a + b)[|a| + i];
  }

  /** What the engine is asked: '=' matches any operand, '<>' none. */
  ghost predicate Selects(op: CompareOp, values: seq<Value>, x: Value) {
    if op == CmpNe then x !in values else x in values
  }

  /**
   A query text whose values are all literals: when the server plans the template, the plan wants as many operands
   as the client lifted values, and the text's own filter holds of a row exactly when the row's match column is one
   of the lifted values, or for '<>' is not.
   */
  lemma {:induction false} PlanMeansText(sql: string, src: string, tokens: seq<Token>, statement: Statement,
                                         p: Prepared, plan: Plan, m: Meaning)
    requires Prepares(src, tokens, statement, p) && src == TrimStatement(sql)
    requires statement.filter.Some? && AllLiteral(ParamsOf(statement.filter.value))
    requires BuildPlan(LiftStatement(statement, |Literals(tokens, End)| == 1)) == Ok(plan)
    requires Binds(m.env, p.literals, |Literals(tokens, End)| == 1)
    ensures plan.operands == |p.literals|
    ensures Eval(statement.filter.value, m) <==> Selects(plan.op, p.literals, m.row(plan.column))
  {
    hide Prepares, ParseText, Tokens, Lex, ParseStatement, TrimStatement, Literals, LiftPred, Eval, ParamsOf, PlanMatch;
    hide Plain;
    var single, filter := |Literals(tokens, End)| == 1, statement.filter.value;
    var lifted := LiftPred(filter, [], single);
    PreparedIsNamed(sql, src, tokens, statement, p);
    LiftKeepsNamed(filter, [], single);
    ClientKeepsLiterals(sql, src, tokens, statement, p);
    LiteralsRegardless(filter, [], single);
    LiftedInOrder(filter, [], single);
    LiftingKeepsMeaning(filter, [], single, m);
    MatchMeansFilter(lifted.0, m);
    SelectsIsMatch(PlanMatch(lifted.0).value, lifted.0, p.literals, single, m);
  }

  lemma {:induction false} PreparedIsNamed(sql: string, src: string, tokens: seq<Token>, statement: Statement,
                                           p: Prepared)
    requires Prepares(src, tokens, statement, p) && src == TrimStatement(sql) && statement.filter.Some?
    ensures NamedColumns(statement.filter.value)
  {
    hide Prepares, ParseText, Tokens, Lex, ParseStatement, TrimStatement, Literals, Plain, NamedWords;
    PreparedParses(sql, src, tokens, statement, p);
    LexIsNamed(src, 0);
    NamedFilter(Plain(tokens));
  }

  /** The values lifted do not depend on how the parameters are named. */
  lemma {:induction false} LiteralsRegardless(p: Pred, seen: seq<Value>, single: bool)
    ensures LiftPred(p, seen, single).1 == LiftPred(p, seen, false).1
  {
    match p
    case In(_, params) => ParamsRegardless(params, seen, single);
    case And(left, right) =>
      LiteralsRegardless(left, seen, single);
      LiteralsRegardless(right, LiftPred(left, seen, false).1, single);
    case Or(left, right) =>
      LiteralsRegardless(left, seen, single);
      LiteralsRegardless(right, LiftPred(left, seen, false).1, single);
    case _ =>
  }

  lemma {:induction false} ParamsRegardless(ps: seq<Param>, seen: seq<Value>, single: bool)
    ensures LiftParams(ps, seen, single).1 == LiftParams(ps, seen, false).1
  {
    if ps != [] {
      ParamsRegardless(ps[..|ps| - 1], seen, single);
    }
  }

  lemma {:induction false} SelectsIsMatch(r: Match, p: Pred, values: seq<Value>, single: bool, m: Meaning)
    requires AreNames(r.names, ParamsOf(p)) && AllLifted(ParamsOf(p), 0, single) && |ParamsOf(p)| == |values|
    requires Binds(m.env, values, single)
    ensures MatchMeans(r, m.row(r.column), m.env) <==> Selects(r.op, values, m.row(r.column))
  {
    hide Name, ParamsOf;
    forall i | 0 <= i < |values|
      ensures m.env(r.names[i]) == values[i]
    {
      assert ParamsOf(p)[i] == Bound(r.names[i]) && ParamsOf(p)[i] == Bound(Name(single, 0 + i));
    }
  }

  // ---- how many operands a plan wants --------------------------------------

  function LiteralCount(ps: seq<Param>): (n: nat)
    ensures n <= |ps|
  {
    if ps == [] then 0 else LiteralCount(ps[..|ps| - 1]) + if ps[|ps| - 1].Literal? then 1 else 0
  }

  lemma {:induction false} LiteralCountOfSum(a: seq<Param>, b: seq<Param>)
    ensures LiteralCount(a + b) == LiteralCount(a) + LiteralCount(b)
  {
    if b == [] {
      assert a + b == a;
    } else {
      LiteralCountOfSum(a, b[..|b| - 1]);
      assert (a + b)[..|a + b| - 1] == a + b[..|b| - 1];
    }
  }

  lemma {:induction false} AllCounted(ps: seq<Param>)
    ensures LiteralCount(ps) == |ps| <==> AllLiteral(ps)
  {
    if ps != [] {
      AllCounted(ps[..|ps| - 1]);
    }
  }

  lemma {:induction false} ParamsLifted(ps: seq<Param>, seen: seq<Value>, single: bool)
    ensures |LiftParams(ps, seen, single).1| == |seen| + LiteralCount(ps)
  {
    hide Name;
    if ps != [] {
      ParamsLifted(ps[..|ps| - 1], seen, single);
    }
  }

  /** As many values are lifted as a filter has literals, and its parameters stay as many. */
  lemma {:induction false} LiftedCount(p: Pred, seen: seq<Value>, single: bool)
    ensures |LiftPred(p, seen, single).1| == |seen| + LiteralCount(ParamsOf(p))
    ensures |ParamsOf(LiftPred(p, seen, single).0)| == |ParamsOf(p)|
  {
    hide Name;
    match p
    case In(_, params) => ParamsLifted(params, seen, single);
    case And(left, right) =>
      LiftedCount(left, seen, single);
      LiftedCount(right, LiftPred(left, seen, single).1, single);
      LiteralCountOfSum(ParamsOf(left), ParamsOf(right));
    case Or(left, right) =>
      LiftedCount(left, seen, single);
      LiftedCount(right, LiftPred(left, seen, single).1, single);
      LiteralCountOfSum(ParamsOf(left), ParamsOf(right));
    case Between(_, low, high) => LiteralCountOfSum([low], [high]);
    case _ =>
  }

  /** The plan wants an operand for every value of the filter, the client has one for every literal. */
  lemma {:induction false} OperandCounts(sql: string, src: string, tokens: seq<Token>, statement: Statement,
                                         p: Prepared,
                                         plan: Plan, single: bool)
    requires Prepares(src, tokens, statement, p) && src == TrimStatement(sql)
    requires BuildPlan(LiftStatement(statement, single)) == Ok(plan)
    ensures statement.filter.Some?
    ensures plan.operands == |ParamsOf(statement.filter.value)|
    ensures |p.literals| <= plan.operands
    ensures |p.literals| == plan.operands <==> AllLiteral(ParamsOf(statement.filter.value))
  {
    hide Prepares, TrimStatement, LiftPred, ParamsOf, PlanMatch, AllLiteral, Eval;
    var filter := statement.filter.value;
    var lifted := LiftPred(filter, [], single).0;
    PreparedIsNamed(sql, src, tokens, statement, p);
    LiftKeepsNamed(filter, [], single);
    ClientKeepsLiterals(sql, src, tokens, statement, p);
    LiftedCount(filter, [], single);
    LiftedCount(filter, [], false);
    MatchMeansFilter(lifted, Meaning(_ => Int(0), _ => Int(0), (a, b) => false, (a, b) => false));
    AllCounted(ParamsOf(filter));
  }

  /** A filter with one value that is a bound parameter: the plan selects by what the parameter is bound to. */
  lemma {:induction false} PlanMeansBound(sql: string, src: string, tokens: seq<Token>, statement: Statement,
                                          p: Prepared,
                                          plan: Plan, single: bool, m: Meaning)
    requires Prepares(src, tokens, statement, p) && src == TrimStatement(sql)
    requires BuildPlan(LiftStatement(statement, single)) == Ok(plan) && p.literals == [] && plan.operands == 1
    ensures statement.filter.Some?
    ensures Eval(statement.filter.value, m) <==> Selects(plan.op, [m.env(plan.parameter)], m.row(plan.column))
  {
    hide Prepares, TrimStatement, LiftPred, ParamsOf, PlanMatch, Eval;
    var filter := statement.filter.value;
    PreparedIsNamed(sql, src, tokens, statement, p);
    LiftKeepsNamed(filter, [], single);
    ClientKeepsLiterals(sql, src, tokens, statement, p);
    LiteralsRegardless(filter, [], single);
    LiftingKeepsMeaning(filter, [], single, m);
    MatchMeansFilter(LiftPred(filter, [], single).0, m);
  }

  /** Without bound parameters a filter does not depend on the environment. */
  lemma {:induction false} LiteralsIgnoreEnv(p: Pred, m: Meaning, env: string -> Value)
    requires AllLiteral(ParamsOf(p))
    ensures Eval(p, m) <==> Eval(p, m.(env := env))
  {
    match p
    case And(left, right) =>
      SplitLiterals(ParamsOf(left), ParamsOf(right));
      LiteralsIgnoreEnv(left, m, env);
      LiteralsIgnoreEnv(right, m, env);
    case Or(left, right) =>
      SplitLiterals(ParamsOf(left), ParamsOf(right));
      LiteralsIgnoreEnv(left, m, env);
      LiteralsIgnoreEnv(right, m, env);
    case Compare(_, _, param) => assert ParamsOf(p)[0].Literal?;
    case Like(_, param) => assert ParamsOf(p)[0].Literal?;
    case Between(_, low, high) => assert ParamsOf(p)[0].Literal? && ParamsOf(p)[1].Literal?;
    case In(column, params) =>
      if i :| 0 <= i < |params| && m.row(column) == ParamValue(params[i], m) {
        assert params[i].Literal? && m.row(column) == ParamValue(params[i], m.(env := env));
      }
      if i :| 0 <= i < |params| && m.row(column) == ParamValue(params[i], m.(env := env)) {
        assert params[i].Literal? && m.row(column) == ParamValue(params[i], m);
      }
  }

  /** An environment that binds the parameters of the lifted values. */
  ghost function LiftedEnv(values: seq<Value>, single: bool): (env: string -> Value) {
    (name: string) =>
      if exists j :: 0 <= j < |values| && Name(single, j) == name
      then var j :| 0 <= j < |values| && Name(single, j) == name; values[j]
      else Int(0)
  }

  lemma {:induction false} LiftedEnvBinds(values: seq<Value>, single: bool)
    requires single ==> |values| <= 1
    ensures Binds(LiftedEnv(values, single), values, single)
  {
    forall j | 0 <= j < |values|
      ensures LiftedEnv(values, single)(Name(single, j)) == values[j]
    {
      forall k | 0 <= k < |values| && Name(single, k) == Name(single, j)
        ensures k == j
      {
        if !single {
          NamesApart(j, k);
        }
      }
    }
  }

  lemma {:induction false} AsManyValues(lits: seq<Token>)
    requires ValuesOf(lits).Some?
    ensures |ValuesOf(lits).value| == |lits|
  {
    hide ValueOf;
    if lits != [] {
      AsManyValues(lits[..|lits| - 1]);
    }
  }

  /** PlanMeansText without an environment: none of the values is a bound parameter. */
  lemma {:induction false} PlanMeansLiterals(sql: string, src: string, tokens: seq<Token>, statement: Statement,
                                             p: Prepared,
                                             plan: Plan, m: Meaning)
    requires Prepares(src, tokens, statement, p) && src == TrimStatement(sql)
    requires BuildPlan(LiftStatement(statement, |Literals(tokens, End)| == 1)) == Ok(plan)
    requires |p.literals| == plan.operands
    ensures statement.filter.Some?
    ensures Eval(statement.filter.value, m) <==> Selects(plan.op, p.literals, m.row(plan.column))
  {
    var single := |Literals(tokens, End)| == 1;
    AsManyValues(Literals(tokens, End));
    hide Prepares, Literals, LiftStatement, BuildPlan, TrimStatement, ParamsOf, Eval, AllLiteral, LiftedEnv, Binds;
    OperandCounts(sql, src, tokens, statement, p, plan, single);
    var env := LiftedEnv(p.literals, single);
    LiftedEnvBinds(p.literals, single);
    PlanMeansText(sql, src, tokens, statement, p, plan, m.(env := env));
    LiteralsIgnoreEnv(statement.filter.value, m, env);
  }

  /** Lifted values never share a parameter. */
  lemma {:induction false} NamesApart(j: nat, k: nat)
    ensures Name(false, j) == Name(false, k) ==> j == k
  {
    if Name(false, j) == Name(false, k) {
      assert Name(false, j)[1..] == Decimal(j) && Name(false, k)[1..] == Decimal(k);
      DecimalApart(j, k);
    }
  }

  lemma {:induction false} DecimalApart(j: nat, k: nat)
    requires Decimal(j) == Decimal(k)
    ensures j == k
  {
    var a, b := Decimal(j), Decimal(k);
    DecimalParts(j);
    DecimalParts(k);
    assert j % 10 == k % 10;
    if j >= 10 && k >= 10 {
      DecimalApart(j / 10, k / 10);
    }
  }

  lemma {:induction false} DecimalParts(n: nat)
    ensures Decimal(n) != "" && Decimal(n)[|Decimal(n)| - 1] == ('0' as int + n % 10) as char
    ensures n >= 10 ==> Decimal(n)[..|Decimal(n)| - 1] == Decimal(n / 10) && |Decimal(n)| > 1
    ensures n < 10 ==> |Decimal(n)| == 1
  {
    if n >= 10 {
      DecimalParts(n / 10);
    }
  }

  function EncodeAll(values: seq<Value>, encode: Value -> nat): (keys: seq<nat>)
    ensures |keys| == |values|
  {
    seq(|values|, i requires 0 <= i < |values| => encode(values[i]))
  }

  function EngineOp(op: CompareOp): (r: Indicator.Op) {
    if op == CmpNe then Indicator.Ne else Indicator.Eq
  }

  /**
   Matching on encoded keys is matching on values, unless a value that was not asked for shares the key of one that was.
   */
  lemma {:induction false} EncodedSelects(op: CompareOp, values: seq<Value>, x: Value, encode: Value -> nat)
    ensures (QueryMeaning.Matches(EngineOp(op), EncodeAll(values, encode), encode(x)) <==> Selects(op, values, x))
            <==> (x in values || forall i :: 0 <= i < |values| ==> encode(values[i]) != encode(x))
  {
    var keys := EncodeAll(values, encode);
    if x in values {
      var i :| 0 <= i < |values| && values[i] == x;
      assert keys[i] == encode(x);
    }
    if encode(x) in keys {
      var i :| 0 <= i < |keys| && keys[i] == encode(x);
      assert encode(values[i]) == encode(x);
    } else {
      forall i | 0 <= i < |values|
        ensures encode(values[i]) != encode(x)
      {
        assert keys[i] in keys;
      }
    }
  }

  // ---- the visitors -------------------------------------------------------

  class OrEqualityCollector {
    var column: string
    var parameters: seq<string>

    constructor ()
      ensures column == "" && parameters == []
    {
      column, parameters := "", [];
    }

    method Visit(p: Pred) returns (r: Result<()>)
      modifies this
      ensures match Collect(p, old(column), old(parameters))
              case Err(e) => r == Err(e)
              case Ok(m) => r == Ok(()) && column == m.column && parameters == m.names
      decreases p
    {
      match p
      case Compare(c, op, param) =>
        if op != CmpEq {
          return Err(Unimplemented);
        }
        if param.Literal? {
          return Err(InvalidArgument);
        }
        if column == "" {
          column := c;
        } else if column != c {
          return Err(Unimplemented);
        }
        parameters := parameters + [param.name];
        r := Ok(());
      case Or(left, right) =>
        r := Visit(left);
        if r.Ok? {
          r := Visit(right);
        }
      case _ =>
        r := Err(Unimplemented);
    }
  }

  /** The WHERE visitor: one match, or why there is none. */
  method PlanFilter(p: Pred) returns (r: Result<Match>)
    ensures r == PlanMatch(p)
  {
    match p
    case Compare(c, op, param) =>
      if op != CmpEq && op != CmpNe {
        return Err(Unimplemented);
      }
      if param.Literal? {
        return Err(InvalidArgument);
      }
      r := Ok(Match(c, op, [param.name]));
    case In(c, params) =>
      if params == [] {
        return Err(InvalidArgument);
      }
      for i := 0 to |params|
        invariant forall j :: 0 <= j < i ==> params[j].Bound?
      {
        if params[i].Literal? {
          return Err(InvalidArgument);
        }
      }
      r := Ok(Match(c, CmpEq, NamesOf(params)));
    case Or(_, _) =>
      var collector := new OrEqualityCollector();
      var ok := collector.Visit(p);
      r := if ok.Err? then Err(ok.error) else Ok(Match(collector.column, CmpEq, collector.parameters));
    case _ =>
      r := Err(Unimplemented);
  }

  method CheckProjection(projection: Projection) returns (ok: bool)
    ensures ok == ProjectionOk(projection)
  {
    if !projection.Columns? {
      return true;
    }
    var names := projection.names;
    if names == [] {
      return false;
    }
    var seen: set<string> := {};
    for i := 0 to |names|
      invariant seen == set j | 0 <= j < i :: names[j]
      invariant "" !in names[..i]
      invariant forall j, k :: 0 <= j < k < i ==> names[j] != names[k]
    {
      assert names[..i + 1] == names[..i] + [names[i]];
      if names[i] == "" || names[i] in seen {
        return false;
      }
      seen := seen + {names[i]};
    }
    assert names[..|names|] == names;
    ok := true;
  }

  method BuildLogicalPlan(s: Statement) returns (r: Result<Plan>)
    ensures r == BuildPlan(s)
  {
    if s.filter.None? {
      return Err(InvalidArgument);
    }
    var m := PlanFilter(s.filter.value);
    match m
    case Err(e) => r := Err(e);
    case Ok(found) =>
      var projectionOk := CheckProjection(s.projection);
      if s.table == "" || !projectionOk || found.column == "" || found.names == [] || found.names[0] == "" {
        return Err(InvalidArgument);
      }
      r := Ok(Plan(s.table, s.projection, found.column, found.op, found.names[0], |found.names|, s.limit, s.offset));
  }
}
