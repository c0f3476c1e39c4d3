/** The template parses to the source's statement with the same literals turned into parameters. */
module LiftedStatement {
  import opened Base
  import opened Tokenizer
  import opened Lifting
  import opened Parser

  // ---- lifting syntax trees -----------------------------------------------

  /** Lifts a literal as the next one; the values lifted so far go along. */
  function LiftParam(p: Param, seen: seq<Value>, single: bool): (r: (Param, seq<Value>)) {
    if p.Literal? then (Bound(Name(single, |seen|)), seen + [p.value]) else (p, seen)
  }

  function LiftParams(ps: seq<Param>, seen: seq<Value>, single: bool): (r: (seq<Param>, seq<Value>))
    ensures |r.0| == |ps|
  {
    if ps == [] then ([], seen)
    else
      var front := LiftParams(ps[..|ps| - 1], seen, single);
      var last := LiftParam(ps[|ps| - 1], front.1, single);
      (front.0 + [last.0], last.1)
  }

  function LiftPred(p: Pred, seen: seq<Value>, single: bool): (r: (Pred, seq<Value>)) {
    match p
    case Compare(column, op, param) => var q := LiftParam(param, seen, single); (Compare(column, op, q.0), q.1)
    case In(column, params) => var q := LiftParams(params, seen, single); (In(column, q.0), q.1)
    case Like(column, param) => var q := LiftParam(param, seen, single); (Like(column, q.0), q.1)
    case Between(column, low, high) =>
      var l := LiftParam(low, seen, single);
      var h := LiftParam(high, l.1, single);
      (Between(column, l.0, h.0), h.1)
    case And(left, right) =>
      var l := LiftPred(left, seen, single);
      var r := LiftPred(right, l.1, single);
      (And(l.0, r.0), r.1)
    case Or(left, right) =>
      var l := LiftPred(left, seen, single);
      var r := LiftPred(right, l.1, single);
      (Or(l.0, r.0), r.1)
  }

  /** The statement with its literals lifted. */
  function LiftStatement(s: Statement, single: bool): (r: Statement) {
    if s.filter.Some? then s.(filter := Some(LiftPred(s.filter.value, [], single).0)) else s
  }

  /** The statement's literals, left to right. */
  function StatementLiterals(s: Statement): (values: seq<Value>) {
    if s.filter.Some? then LiftPred(s.filter.value, [], false).1 else []
  }

  // ---- lifting words, position by position --------------------------------

  predicate LiftedAt(words: seq<Word>, prev: Kind, i: nat)
    requires i < |words|
  {
    Lifts(if i == 0 then prev else words[i - 1].kind, words[i].kind)
  }

  /** The value a literal word stands for; a number out of range never gets that far. */
  function WordValue(w: Word): (v: Value) {
    if w.kind == StringLiteral then Text(w.text)
    else match Atoi(w.text, MAX_INT64) case Some(n) => Int(n) case None => Int(-1)
  }

  /** The values of the lifted ones among the first i words. */
  function LiftedBefore(words: seq<Word>, prev: Kind, i: nat): (values: seq<Value>)
    requires i <= |words|
  {
    if i == 0 then []
    else LiftedBefore(words, prev, i - 1) + (if LiftedAt(words, prev, i - 1) then [WordValue(words[i - 1])] else [])
  }

  function LiftedWord(words: seq<Word>, prev: Kind, i: nat, k: nat, single: bool): (w: Word)
    requires i < |words|
  {
    if LiftedAt(words, prev, i) then Word(Parameter, Name(single, k + |LiftedBefore(words, prev, i)|)) else words[i]
  }

  lemma {:induction false} BeforeOfTail(words: seq<Word>, prev: Kind, i: nat)
    requires 0 < i <= |words|
    ensures |LiftedBefore(words, prev, i)|
            == (if LiftedAt(words, prev, 0) then 1 else 0) + |LiftedBefore(words[1..], words[0].kind, i - 1)|
  {
    hide Lifts, WordValue;
    if i > 1 {
      BeforeOfTail(words, prev, i - 1);
      assert LiftedAt(words, prev, i - 1) == LiftedAt(words[1..], words[0].kind, i - 2);
    }
  }

  lemma {:induction false} LiftWordsAt(words: seq<Word>, prev: Kind, k: nat, single: bool, i: nat)
    requires i < |words|
    ensures LiftWords(words, prev, k, single)[i] == LiftedWord(words, prev, i, k, single)
  {
    hide Lifts, Name, WordValue;
    if i > 0 {
      var k' := if LiftedAt(words, prev, 0) then k + 1 else k;
      assert LiftWords(words, prev, k, single)[i] == LiftWords(words[1..], words[0].kind, k', single)[i - 1];
      hide LiftWords;
      LiftWordsAt(words[1..], words[0].kind, k', single, i - 1);
      BeforeOfTail(words, prev, i);
      assert LiftedAt(words, prev, i) == LiftedAt(words[1..], words[0].kind, i - 1);
    }
  }

  /** words' is words with the literals lifted. */
  ghost predicate IsLift(words: seq<Word>, words': seq<Word>, single: bool) {
    |words'| == |words| && forall i :: 0 <= i < |words| ==> words'[i] == LiftedWord(words, End, i, 0, single)
  }

  function Seen(words: seq<Word>, pos: nat): (values: seq<Value>)
    requires pos <= |words|
  {
    LiftedBefore(words, End, pos)
  }

  /** Words that are no literals stay, literals do not turn into anything but parameters. */
  lemma {:induction false} KeptWord(words: seq<Word>, words': seq<Word>, single: bool, pos: nat)
    requires IsLift(words, words', single)
    ensures !IsLiteral(At(words, pos)) ==>
              At(words', pos) == At(words, pos) && (pos < |words| ==> words'[pos] == words[pos])
    ensures IsLiteral(At(words, pos)) ==> At(words', pos) == Parameter || At(words', pos) == At(words, pos)
    ensures !IsLiteral(At(words, pos)) && pos < |words| ==> Seen(words, pos + 1) == Seen(words, pos)
  {
    hide Name;
  }

  // ---- values -------------------------------------------------------------

  /** A place where a literal is a value: not behind LIMIT or OFFSET. */
  predicate ValuePlace(words: seq<Word>, pos: nat) {
    0 < pos && At(words, pos - 1) != KwLimit && At(words, pos - 1) != KwOffset
  }

  lemma {:induction false} LiftedParam(words: seq<Word>, words': seq<Word>, single: bool, pos: nat)
    requires IsLift(words, words', single) && ValuePlace(words, pos) && ParseParam(words, pos).Some?
    ensures pos < |words| && ParseParam(words, pos).value.1 == pos + 1
    ensures var q := LiftParam(ParseParam(words, pos).value.0, Seen(words, pos), single);
            ParseParam(words', pos) == Some((q.0, pos + 1)) && q.1 == Seen(words, pos + 1)
  {
    hide Name;
    assert words'[pos] == LiftedWord(words, End, pos, 0, single);
  }

  lemma {:induction false} LiftedParams(words: seq<Word>, words': seq<Word>, single: bool, pos: nat, params: seq<Param>,
                                        seen: seq<Value>)
    requires IsLift(words, words', single) && pos <= |words| && ParseParams(words, pos, params).Some?
    requires LiftParams(params, seen, single).1 == Seen(words, pos)
    ensures var (all, end) := ParseParams(words, pos, params).value;
            ParseParams(words', pos, LiftParams(params, seen, single).0) == Some((LiftParams(all, seen, single).0, end))
            && end <= |words| && LiftParams(all, seen, single).1 == Seen(words, end)
    decreases |words| - pos
  {
    hide IsLift, ParseParam, Seen, LiftParam;
    KeptWord(words, words', single, pos);
    if At(words, pos) == Comma {
      LiftedParam(words, words', single, pos + 1);
      var p := ParseParam(words, pos + 1).value;
      assert (params + [p.0])[..|params|] == params;
      LiftedParams(words, words', single, p.1, params + [p.0], seen);
    } else {
      NotALiteral(Comma);
      SameKind(words, words', single, pos, Comma);
    }
  }

  lemma {:induction false} SameKind(words: seq<Word>, words': seq<Word>, single: bool, pos: nat, kind: Kind)
    requires IsLift(words, words', single) && !IsLiteral(kind) && kind != Parameter
    ensures At(words', pos) == kind <==> At(words, pos) == kind
  {
    KeptWord(words, words', single, pos);
  }

  // ---- predicates ---------------------------------------------------------

  /** What parses in the source as r parses in the template as r with its literals lifted from the k-th on. */
  ghost predicate PredLifts(words: seq<Word>, single: bool, seen: seq<Value>, r: Parsed<Pred>, r': Parsed<Pred>) {
    r.Some? ==>
      && r.value.1 <= |words| && r' == Some((LiftPred(r.value.0, seen, single).0, r.value.1))
      && LiftPred(r.value.0, seen, single).1 == Seen(words, r.value.1)
  }

  lemma {:induction false} LiftedIn(words: seq<Word>, words': seq<Word>, single: bool, pos: nat, column: string)
    requires IsLift(words, words', single) && pos <= |words|
    ensures PredLifts(words, single, Seen(words, pos), ParseIn(words, pos, column), ParseIn(words', pos, column))
  {
    hide IsLift, Seen, LiftParam, ParseParam, ParseParams, IsLiteral;
    if ParseIn(words, pos, column).Some? {
      KeptWord(words, words', single, pos);
      NotALiteral(LParen);
      NotALiteral(RParen);
      LiftedParam(words, words', single, pos + 1);
      var first := ParseParam(words, pos + 1).value;
      OneParam(first.0, Seen(words, pos), single);
      LiftedParams(words, words', single, first.1, [first.0], Seen(words, pos));
      var all := ParseParams(words, first.1, [first.0]).value;
      KeptWord(words, words', single, all.1);
    }
  }

  lemma {:induction false} OneParam(p: Param, seen: seq<Value>, single: bool)
    ensures LiftParams([p], seen, single) == ([LiftParam(p, seen, single).0], LiftParam(p, seen, single).1)
  {
    hide LiftParam;
    var q := LiftParam(p, seen, single);
    assert [p][..0] == [] && [] + [q.0] == [q.0];
    assert LiftParams([p][..0], seen, single) == ([], seen);
  }

  lemma {:induction false} NotALiteral(kind: Kind)
    requires kind != StringLiteral && kind != NumberLiteral
    ensures !IsLiteral(kind)
  {
  }

  lemma {:induction false} LiftedBetween(words: seq<Word>, words': seq<Word>, single: bool, pos: nat, column: string)
    requires IsLift(words, words', single) && ValuePlace(words, pos) && pos <= |words|
    ensures PredLifts(words, single, Seen(words, pos), ParseBetween(words, pos, column),
              ParseBetween(words', pos, column))
  {
    hide IsLift, Seen, LiftParam, ParseParam, IsLiteral;
    if ParseBetween(words, pos, column).Some? {
      LiftedParam(words, words', single, pos);
      NotALiteral(KwAnd);
      KeptWord(words, words', single, pos + 1);
      LiftedParam(words, words', single, pos + 2);
    }
  }

  lemma {:induction false} LiftedLike(words: seq<Word>, words': seq<Word>, single: bool, pos: nat, column: string)
    requires IsLift(words, words', single) && ValuePlace(words, pos) && pos <= |words|
    ensures PredLifts(words, single, Seen(words, pos), ParseLike(words, pos, column), ParseLike(words', pos, column))
  {
    hide IsLift, Seen, LiftParam, ParseParam;
    if ParseLike(words, pos, column).Some? {
      LiftedParam(words, words', single, pos);
    }
  }

  lemma {:induction false} LiftedCompare(words: seq<Word>, words': seq<Word>, single: bool, pos: nat, column: string)
    requires IsLift(words, words', single) && pos <= |words|
    ensures PredLifts(words, single, Seen(words, pos), ParseCompare(words, pos, column),
              ParseCompare(words', pos, column))
  {
    hide IsLift, Seen, LiftParam, ParseParam;
    if ParseCompare(words, pos, column).Some? {
      KeptWord(words, words', single, pos);
      LiftedParam(words, words', single, pos + 1);
    }
  }

  lemma {:induction false} LiftedOperation(words: seq<Word>, words': seq<Word>, single: bool, pos: nat, column: string)
    requires IsLift(words, words', single) && pos <= |words|
    ensures PredLifts(words, single, Seen(words, pos), ParseOperation(words, pos, column),
              ParseOperation(words', pos, column))
  {
    hide IsLift, Seen, PredLifts, ParseIn, ParseBetween, ParseLike, ParseCompare, IsLiteral;
    NotALiteral(KwIn);
    NotALiteral(KwLike);
    NotALiteral(KwBetween);
    KeptWord(words, words', single, pos);
    SameKind(words, words', single, pos, KwIn);
    SameKind(words, words', single, pos, KwLike);
    SameKind(words, words', single, pos, KwBetween);
    if At(words, pos) == KwIn {
      LiftedIn(words, words', single, pos + 1, column);
    } else if At(words, pos) == KwLike {
      LiftedLike(words, words', single, pos + 1, column);
    } else if At(words, pos) == KwBetween {
      LiftedBetween(words, words', single, pos + 1, column);
    } else {
      LiftedCompare(words, words', single, pos, column);
    }
  }

  lemma {:induction false} LiftedComparison(words: seq<Word>, words': seq<Word>, single: bool, pos: nat)
    requires IsLift(words, words', single) && pos <= |words|
    ensures PredLifts(words, single, Seen(words, pos), ParseComparison(words, pos), ParseComparison(words', pos))
  {
    hide IsLift, Seen, PredLifts, ParseOperation, IsLiteral;
    NotALiteral(Identifier);
    if At(words, pos) == Identifier {
      KeptWord(words, words', single, pos);
      LiftedOperation(words, words', single, pos + 1, words[pos].text);
    } else {
      NothingLifts(words, single, Seen(words, pos), ParseComparison(words', pos));
    }
  }

  lemma {:induction false} NothingLifts(words: seq<Word>, single: bool, seen: seq<Value>, r': Parsed<Pred>)
    ensures PredLifts(words, single, seen, None, r')
  {
  }

  lemma {:induction false} LiftedAnds(words: seq<Word>, words': seq<Word>, single: bool, pos: nat, node: Pred,
                                      seen: seq<Value>)
    requires IsLift(words, words', single) && pos <= |words| && LiftPred(node, seen, single).1 == Seen(words, pos)
    ensures PredLifts(words, single, seen, ParseAnds(words, pos, node),
              ParseAnds(words', pos, LiftPred(node, seen, single).0))
    decreases |words| - pos
  {
    hide IsLift, Seen, ParseComparison, IsLiteral;
    NotALiteral(KwAnd);
    SameKind(words, words', single, pos, KwAnd);
    if At(words, pos) == KwAnd {
      KeptWord(words, words', single, pos);
      LiftedComparison(words, words', single, pos + 1);
      var right := ParseComparison(words, pos + 1);
      if right.Some? {
        LiftedAnds(words, words', single, right.value.1, And(node, right.value.0), seen);
      }
    }
  }

  lemma {:induction false} LiftedOrTerm(words: seq<Word>, words': seq<Word>, single: bool, pos: nat)
    requires IsLift(words, words', single) && pos <= |words|
    ensures PredLifts(words, single, Seen(words, pos), ParseOrTerm(words, pos), ParseOrTerm(words', pos))
  {
    hide IsLift, Seen, ParseComparison, ParseAnds;
    LiftedComparison(words, words', single, pos);
    var left := ParseComparison(words, pos);
    if left.Some? {
      LiftedAnds(words, words', single, left.value.1, left.value.0, Seen(words, pos));
    }
  }

  lemma {:induction false} LiftedOrs(words: seq<Word>, words': seq<Word>, single: bool, pos: nat, node: Pred,
                                     seen: seq<Value>)
    requires IsLift(words, words', single) && pos <= |words| && LiftPred(node, seen, single).1 == Seen(words, pos)
    ensures PredLifts(words, single, seen, ParseOrs(words, pos, node),
              ParseOrs(words', pos, LiftPred(node, seen, single).0))
    decreases |words| - pos
  {
    hide IsLift, Seen, ParseOrTerm, IsLiteral;
    NotALiteral(KwOr);
    SameKind(words, words', single, pos, KwOr);
    if At(words, pos) == KwOr {
      KeptWord(words, words', single, pos);
      LiftedOrTerm(words, words', single, pos + 1);
      var right := ParseOrTerm(words, pos + 1);
      if right.Some? {
        LiftedOrs(words, words', single, right.value.1, Or(node, right.value.0), seen);
      }
    }
  }

  lemma {:induction false} LiftedPredicate(words: seq<Word>, words': seq<Word>, single: bool, pos: nat)
    requires IsLift(words, words', single) && pos <= |words|
    ensures PredLifts(words, single, Seen(words, pos), ParsePredicate(words, pos), ParsePredicate(words', pos))
  {
    hide IsLift, Seen, ParseOrTerm, ParseOrs;
    LiftedOrTerm(words, words', single, pos);
    var left := ParseOrTerm(words, pos);
    if left.Some? {
      LiftedOrs(words, words', single, left.value.1, left.value.0, Seen(words, pos));
    }
  }

  // ---- around the filter --------------------------------------------------

  /** What parses in the source without values parses in the template the same, and no literal is passed. */
  ghost predicate Same<T>(words: seq<Word>, pos: nat, r: Parsed<T>, r': Parsed<T>)
    requires pos <= |words|
  {
    r.Some? ==> r' == r && pos <= r.value.1 <= |words| && Seen(words, r.value.1) == Seen(words, pos)
  }

  lemma {:induction false} SameIdentifier(words: seq<Word>, words': seq<Word>, single: bool, pos: nat)
    requires IsLift(words, words', single) && pos <= |words|
    ensures Same(words, pos, ParseIdentifier(words, pos), ParseIdentifier(words', pos))
  {
    hide IsLift, Seen;
    KeptWord(words, words', single, pos);
  }

  lemma {:induction false} SameColumn(words: seq<Word>, words': seq<Word>, single: bool, pos: nat)
    requires IsLift(words, words', single) && pos <= |words|
    ensures Same(words, pos, ParseColumn(words, pos), ParseColumn(words', pos))
  {
    hide IsLift, Seen, IsLiteral;
    NotALiteral(KwAs);
    SameIdentifier(words, words', single, pos);
    if At(words, pos) == Identifier {
      SameKind(words, words', single, pos + 1, KwAs);
      if At(words, pos + 1) == KwAs {
        KeptWord(words, words', single, pos + 1);
        SameIdentifier(words, words', single, pos + 2);
      }
    }
  }

  lemma {:induction false} SameColumns(words: seq<Word>, words': seq<Word>, single: bool, pos: nat, names: seq<string>,
                                       aliases: seq<string>)
    requires IsLift(words, words', single) && pos <= |words|
    ensures Same(words, pos, ParseColumns(words, pos, names, aliases), ParseColumns(words', pos, names, aliases))
    decreases |words| - pos
  {
    hide IsLift, Seen, IsLiteral, ParseColumn;
    SameColumn(words, words', single, pos);
    var c := ParseColumn(words, pos);
    if c.Some? {
      NotALiteral(Comma);
      SameKind(words, words', single, c.value.1, Comma);
      if At(words, c.value.1) == Comma {
        KeptWord(words, words', single, c.value.1);
        SameColumns(words, words', single, c.value.1 + 1, names + [c.value.0.0], aliases + [c.value.0.1]);
      }
    }
  }

  lemma {:induction false} SameOrderItem(words: seq<Word>, words': seq<Word>, single: bool, pos: nat)
    requires IsLift(words, words', single) && pos <= |words|
    ensures Same(words, pos, ParseOrderItem(words, pos), ParseOrderItem(words', pos))
  {
    hide IsLift, Seen, IsLiteral;
    SameIdentifier(words, words', single, pos);
    NotALiteral(KwDesc);
    NotALiteral(KwAsc);
    SameKind(words, words', single, pos + 1, KwDesc);
    SameKind(words, words', single, pos + 1, KwAsc);
    KeptWord(words, words', single, pos + 1);
  }

  lemma {:induction false} SameOrderBy(words: seq<Word>, words': seq<Word>, single: bool, pos: nat,
                                       items: seq<OrderItem>)
    requires IsLift(words, words', single) && pos <= |words|
    ensures Same(words, pos, ParseOrderBy(words, pos, items), ParseOrderBy(words', pos, items))
    decreases |words| - pos
  {
    hide IsLift, Seen, IsLiteral, ParseOrderItem;
    SameOrderItem(words, words', single, pos);
    var item := ParseOrderItem(words, pos);
    if item.Some? {
      NotALiteral(Comma);
      SameKind(words, words', single, item.value.1, Comma);
      if At(words, item.value.1) == Comma {
        KeptWord(words, words', single, item.value.1);
        SameOrderBy(words, words', single, item.value.1 + 1, items + [item.value.0]);
      }
    }
  }

  lemma {:induction false} SameProjection(words: seq<Word>, words': seq<Word>, single: bool, pos: nat, distinct: bool)
    requires IsLift(words, words', single) && pos <= |words|
    ensures Same(words, pos, ParseProjection(words, pos, distinct), ParseProjection(words', pos, distinct))
  {
    hide IsLift, Seen, IsLiteral, ParseColumns;
    NotALiteral(KwCount);
    NotALiteral(Star);
    NotALiteral(LParen);
    NotALiteral(RParen);
    KeptWord(words, words', single, pos);
    SameKind(words, words', single, pos, KwCount);
    SameKind(words, words', single, pos, Star);
    if At(words, pos) == KwCount {
      KeptWord(words, words', single, pos + 1);
      KeptWord(words, words', single, pos + 2);
      KeptWord(words, words', single, pos + 3);
    } else if At(words, pos) != Star {
      SameColumns(words, words', single, pos, [], []);
    }
  }

  lemma {:induction false} SameFrom(words: seq<Word>, words': seq<Word>, single: bool, pos: nat)
    requires IsLift(words, words', single) && pos <= |words|
    ensures Same(words, pos, ParseFrom(words, pos), ParseFrom(words', pos))
  {
    hide IsLift, Seen, IsLiteral, ParseIdentifier;
    NotALiteral(KwFrom);
    KeptWord(words, words', single, pos);
    if At(words, pos) == KwFrom {
      SameIdentifier(words, words', single, pos + 1);
    }
  }

  lemma {:induction false} SameHead(words: seq<Word>, words': seq<Word>, single: bool)
    requires IsLift(words, words', single)
    ensures Same(words, 0, ParseHead(words), ParseHead(words'))
  {
    hide IsLift, Seen, IsLiteral, ParseProjection, ParseFrom;
    NotALiteral(KwSelect);
    NotALiteral(KwDistinct);
    KeptWord(words, words', single, 0);
    if ParseHead(words).Some? {
      KeptWord(words, words', single, 1);
      SameKind(words, words', single, 1, KwDistinct);
      var pos, distinct := Skip(words, 1, KwDistinct), At(words, 1) == KwDistinct;
      assert pos <= |words| && Seen(words, pos) == Seen(words, 0);
      hide At;
      SameProjection(words, words', single, pos, distinct);
      SameFrom(words, words', single, ParseProjection(words, pos, distinct).value.1);
    }
  }

  lemma {:induction false} SameCount(words: seq<Word>, words': seq<Word>, single: bool, pos: nat)
    requires IsLift(words, words', single) && 0 < pos <= |words|
    requires (At(words, pos - 1) == KwLimit || At(words, pos - 1) == KwOffset)
    ensures Same(words, pos, ParseCount(words, pos), ParseCount(words', pos))
  {
    if ParseCount(words, pos).Some? {
      assert !LiftedAt(words, End, pos);
      assert words'[pos] == words[pos];
      hide Atoi;
    }
  }

  lemma {:induction false} SameOrder(words: seq<Word>, words': seq<Word>, single: bool, pos: nat)
    requires IsLift(words, words', single) && pos <= |words|
    ensures Same(words, pos, ParseOrder(words, pos), ParseOrder(words', pos))
  {
    hide IsLift, Seen, IsLiteral, ParseOrderBy;
    NotALiteral(KwOrder);
    NotALiteral(KwBy);
    KeptWord(words, words', single, pos);
    SameKind(words, words', single, pos, KwOrder);
    if At(words, pos) == KwOrder && At(words, pos + 1) == KwBy {
      KeptWord(words, words', single, pos + 1);
      SameOrderBy(words, words', single, pos + 2, []);
    }
  }

  lemma {:induction false} SameLimit(words: seq<Word>, words': seq<Word>, single: bool, pos: nat)
    requires IsLift(words, words', single) && pos <= |words|
    ensures Same(words, pos, ParseLimit(words, pos), ParseLimit(words', pos))
  {
    hide IsLift, Seen, IsLiteral, ParseCount;
    NotALiteral(KwLimit);
    KeptWord(words, words', single, pos);
    SameKind(words, words', single, pos, KwLimit);
    if At(words, pos) == KwLimit {
      SameCount(words, words', single, pos + 1);
    }
  }

  lemma {:induction false} SameOffset(words: seq<Word>, words': seq<Word>, single: bool, pos: nat)
    requires IsLift(words, words', single) && pos <= |words|
    ensures Same(words, pos, ParseOffset(words, pos), ParseOffset(words', pos))
  {
    hide IsLift, Seen, IsLiteral, ParseCount;
    NotALiteral(KwOffset);
    KeptWord(words, words', single, pos);
    SameKind(words, words', single, pos, KwOffset);
    if At(words, pos) == KwOffset {
      SameCount(words, words', single, pos + 1);
    }
  }

  /** The end marker stands at the end and nowhere else. */
  ghost predicate EndsOnce(words: seq<Word>) {
    words != [] && forall i :: 0 <= i < |words| ==> (words[i].kind == End <==> i == |words| - 1)
  }

  lemma {:induction false} SameTail(words: seq<Word>, words': seq<Word>, single: bool, pos: nat)
    requires IsLift(words, words', single) && pos <= |words| && ParseTail(words, pos).Some?
    ensures ParseTail(words', pos) == ParseTail(words, pos)
    ensures EndsOnce(words) ==> Seen(words, |words|) == Seen(words, pos)
  {
    hide IsLift, Seen, IsLiteral, ParseOrder, ParseLimit, ParseOffset;
    NotALiteral(End);
    SameOrder(words, words', single, pos);
    var order := ParseOrder(words, pos).value;
    SameLimit(words, words', single, order.1);
    var limit := ParseLimit(words, order.1).value;
    SameOffset(words, words', single, limit.1);
    var offset := ParseOffset(words, limit.1).value;
    KeptWord(words, words', single, offset.1);
    SameLength(words, words', single);
  }

  lemma {:induction false} SameLength(words: seq<Word>, words': seq<Word>, single: bool)
    requires IsLift(words, words', single)
    ensures |words'| == |words|
  {
  }

  lemma {:induction false} LiftWordsIsLift(words: seq<Word>, single: bool)
    ensures IsLift(words, LiftWords(words, End, 0, single), single)
  {
    forall i | 0 <= i < |words|
      ensures LiftWords(words, End, 0, single)[i] == LiftedWord(words, End, i, 0, single)
    {
      LiftWordsAt(words, End, 0, single, i);
    }
  }

  lemma {:induction false} LiftedFilter(words: seq<Word>, words': seq<Word>, single: bool, pos: nat)
    requires IsLift(words, words', single) && pos <= |words| && Seen(words, pos) == [] && ParseWhere(words, pos).Some?
    ensures var (filter, end) := ParseWhere(words, pos).value;
            && end <= |words|
            && ParseWhere(words', pos)
                == Some((if filter.Some? then Some(LiftPred(filter.value, [], single).0) else None, end))
            && Seen(words, end) == if filter.Some? then LiftPred(filter.value, [], single).1 else []
  {
    hide IsLift, IsLiteral, ParsePredicate, Seen;
    NotALiteral(KwWhere);
    SameKind(words, words', single, pos, KwWhere);
    if At(words, pos) == KwWhere {
      KeptWord(words, words', single, pos);
      LiftedPredicate(words, words', single, pos + 1);
    }
  }

  /** The lifted words parse to the statement with its literals lifted and everything else the same. */
  lemma {:induction false} LiftedWordsParse(words: seq<Word>, single: bool)
    requires ParseStatement(words).Some?
    ensures ParseStatement(LiftWords(words, End, 0, single)) == Some(LiftStatement(ParseStatement(words).value, single))
  {
    hide IsLift, ParseHead, ParseTail, ParseWhere, LiftWords, Seen;
    var words' := LiftWords(words, End, 0, single);
    LiftWordsIsLift(words, single);
    SeenNone(words);
    SameHead(words, words', single);
    var pos := ParseHead(words).value.1;
    LiftedFilter(words, words', single, pos);
    SameTail(words, words', single, ParseWhere(words, pos).value.1);
  }

  /** The values lifted from the words are the statement's literals, left to right. */
  lemma {:induction false} LiteralsInOrder(words: seq<Word>)
    requires ParseStatement(words).Some? && EndsOnce(words)
    ensures StatementLiterals(ParseStatement(words).value) == LiftedBefore(words, End, |words|)
  {
    assert Seen(words, |words|) == LiftedBefore(words, End, |words|);
    hide IsLift, ParseHead, ParseTail, ParseWhere, LiftWords, Seen, EndsOnce;
    var words' := LiftWords(words, End, 0, false);
    LiftWordsIsLift(words, false);
    SeenNone(words);
    SameHead(words, words', false);
    var pos := ParseHead(words).value.1;
    LiftedFilter(words, words', false, pos);
    SameTail(words, words', false, ParseWhere(words, pos).value.1);
  }

  lemma {:induction false} SeenNone(words: seq<Word>)
    ensures Seen(words, 0) == []
  {
  }
}
