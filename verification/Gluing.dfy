/**
 A template in which a literal was glued to the next word. Adjacent words of a statement that parses fit together, and
 a parameter that swallowed a keyword is left in front of a word that does not fit.
 */
module Gluing {
  import opened Base
  import opened Tokenizer
  import opened Lifting
  import opened Parser
  import opened LiftedStatement

  // ---- adjacent words of a statement --------------------------------------

  /** A value, a word that joins two parts of a statement, one that closes a part, or any other. */
  datatype Role = Operand | Join | Close | Other

  function RoleOf(k: Kind): (r: Role) {
    match k
    case Parameter | StringLiteral | NumberLiteral => Operand
    case KwAnd | KwOr | KwOrder | KwLimit | KwOffset => Join
    case Comma | RParen | End => Close
    case _ => Other
  }

  predicate IsValue(k: Kind) { RoleOf(k) == Operand }
  predicate Joins(k: Kind) { RoleOf(k) == Join }

  /** What may stand behind a value. */
  predicate Closes(k: Kind) { Joins(k) || RoleOf(k) == Close }

  predicate Fits(words: seq<Word>, i: nat) {
    && (IsValue(At(words, i)) ==> Closes(At(words, i + 1)))
    && (Joins(At(words, i)) ==> !Closes(At(words, i + 1)))
  }

  /** Every word from lo on fits the next one, up to the pair that ends at hi. */
  ghost predicate Adjacent(words: seq<Word>, lo: nat, hi: nat) {
    forall i: nat :: lo <= i < hi ==> Fits(words, i)
  }

  /** The words from lo up to hi fit together, and the last one does not ask for more. */
  ghost predicate Segment(words: seq<Word>, lo: nat, hi: nat) {
    lo < hi && Adjacent(words, lo, hi - 1) && !Joins(At(words, hi - 1))
  }

  lemma {:induction false} OneMore(words: seq<Word>, lo: nat, hi: nat)
    requires Segment(words, lo, hi) && (IsValue(At(words, hi - 1)) ==> Closes(At(words, hi)))
    ensures Adjacent(words, lo, hi) && (!Joins(At(words, hi)) ==> Segment(words, lo, hi + 1))
  {
    hide RoleOf, At;
    assert Fits(words, hi - 1);
    hide Fits;
  }

  lemma {:induction false} TwoSegments(words: seq<Word>, lo: nat, mid: nat, hi: nat)
    requires Segment(words, lo, mid) && Joins(At(words, mid)) && Segment(words, mid + 1, hi)
    requires !Closes(At(words, mid + 1))
    ensures Segment(words, lo, hi)
  {
    hide RoleOf, At;
    OneMore(words, lo, mid);
    assert Fits(words, mid);
    hide Fits;
  }

  lemma {:induction false} ParamsFit(words: seq<Word>, lo: nat, pos: nat, params: seq<Param>)
    requires pos <= |words| && Segment(words, lo, pos) && ParseParams(words, pos, params).Some?
    ensures Segment(words, lo, ParseParams(words, pos, params).value.1)
    decreases |words| - pos
  {
    hide Atoi, Segment;
    if At(words, pos) == Comma {
      var p := ParseParam(words, pos + 1).value;
      CommaValue(words, lo, pos);
      ParamsFit(words, lo, p.1, params + [p.0]);
    }
  }

  lemma {:induction false} CommaValue(words: seq<Word>, lo: nat, pos: nat)
    requires Segment(words, lo, pos) && At(words, pos) == Comma && IsValue(At(words, pos + 1))
    ensures Segment(words, lo, pos + 2)
  {
    assert RoleOf(Comma) == Close;
    hide RoleOf, At;
    assert Fits(words, pos - 1) && Fits(words, pos);
    hide Fits;
  }

  lemma {:induction false} InFits(words: seq<Word>, pos: nat, column: string)
    requires At(words, pos) == Identifier && At(words, pos + 1) == KwIn && ParseIn(words, pos + 2, column).Some?
    ensures Segment(words, pos, ParseIn(words, pos + 2, column).value.1)
  {
    var first := ParseParam(words, pos + 3).value;
    assert RoleOf(Identifier) == Other && RoleOf(KwIn) == Other && RoleOf(LParen) == Other && RoleOf(RParen) == Close;
    assert IsValue(At(words, pos + 3));
    hide Atoi, ParseParams, RoleOf, At;
    assert Fits(words, pos) && Fits(words, pos + 1) && Fits(words, pos + 2);
    hide Fits;
    ParamsFit(words, pos, pos + 4, [first.0]);
    OneMore(words, pos, ParseParams(words, pos + 4, [first.0]).value.1);
  }

  lemma {:induction false} BetweenFits(words: seq<Word>, pos: nat, column: string)
    requires At(words, pos) == Identifier && At(words, pos + 1) == KwBetween
    requires ParseBetween(words, pos + 2, column).Some?
    ensures Segment(words, pos, ParseBetween(words, pos + 2, column).value.1)
  {
    assert RoleOf(Identifier) == Other && RoleOf(KwBetween) == Other && RoleOf(KwAnd) == Join;
    assert IsValue(At(words, pos + 2)) && IsValue(At(words, pos + 4));
    hide Atoi, RoleOf, At;
    assert Fits(words, pos) && Fits(words, pos + 1) && Fits(words, pos + 2) && Fits(words, pos + 3);
    hide Fits;
  }

  lemma {:induction false} CompareFits(words: seq<Word>, pos: nat, column: string)
    requires At(words, pos) == Identifier && ParseCompare(words, pos + 1, column).Some?
    ensures Segment(words, pos, ParseCompare(words, pos + 1, column).value.1)
  {
    assert RoleOf(Identifier) == Other && RoleOf(At(words, pos + 1)) == Other && IsValue(At(words, pos + 2));
    hide Atoi, RoleOf, At;
    assert Fits(words, pos) && Fits(words, pos + 1);
    hide Fits;
  }

  lemma {:induction false} LikeFits(words: seq<Word>, pos: nat, column: string)
    requires At(words, pos) == Identifier && At(words, pos + 1) == KwLike && ParseLike(words, pos + 2, column).Some?
    ensures Segment(words, pos, ParseLike(words, pos + 2, column).value.1)
  {
    assert RoleOf(Identifier) == Other && RoleOf(KwLike) == Other && IsValue(At(words, pos + 2));
    hide Atoi, RoleOf, At;
    assert Fits(words, pos) && Fits(words, pos + 1);
    hide Fits;
  }

  lemma {:induction false} ComparisonFits(words: seq<Word>, pos: nat)
    requires ParseComparison(words, pos).Some?
    ensures Segment(words, pos, ParseComparison(words, pos).value.1) && At(words, pos) == Identifier
  {
    hide Atoi, ParseIn, ParseBetween, ParseCompare, ParseLike, Segment;
    if At(words, pos + 1) == KwIn {
      InFits(words, pos, words[pos].text);
    } else if At(words, pos + 1) == KwLike {
      LikeFits(words, pos, words[pos].text);
    } else if At(words, pos + 1) == KwBetween {
      BetweenFits(words, pos, words[pos].text);
    } else {
      CompareFits(words, pos, words[pos].text);
    }
  }

  lemma {:induction false} AndsFit(words: seq<Word>, lo: nat, pos: nat, node: Pred)
    requires pos <= |words| && Segment(words, lo, pos) && ParseAnds(words, pos, node).Some?
    ensures Segment(words, lo, ParseAnds(words, pos, node).value.1)
    decreases |words| - pos
  {
    hide ParseComparison, Segment;
    if At(words, pos) == KwAnd {
      var right := ParseComparison(words, pos + 1).value;
      ComparisonFits(words, pos + 1);
      assert RoleOf(KwAnd) == Join && RoleOf(Identifier) == Other;
      hide RoleOf;
      TwoSegments(words, lo, pos, right.1);
      AndsFit(words, lo, right.1, And(node, right.0));
    }
  }

  lemma {:induction false} OrTermFits(words: seq<Word>, pos: nat)
    requires ParseOrTerm(words, pos).Some?
    ensures Segment(words, pos, ParseOrTerm(words, pos).value.1) && At(words, pos) == Identifier
  {
    hide ParseComparison, ParseAnds, Segment;
    ComparisonFits(words, pos);
    AndsFit(words, pos, ParseComparison(words, pos).value.1, ParseComparison(words, pos).value.0);
  }

  lemma {:induction false} OrsFit(words: seq<Word>, lo: nat, pos: nat, node: Pred)
    requires pos <= |words| && Segment(words, lo, pos) && ParseOrs(words, pos, node).Some?
    ensures Segment(words, lo, ParseOrs(words, pos, node).value.1)
    decreases |words| - pos
  {
    hide ParseOrTerm, Segment;
    if At(words, pos) == KwOr {
      var right := ParseOrTerm(words, pos + 1).value;
      OrTermFits(words, pos + 1);
      assert RoleOf(KwOr) == Join && RoleOf(Identifier) == Other;
      hide RoleOf;
      TwoSegments(words, lo, pos, right.1);
      OrsFit(words, lo, right.1, Or(node, right.0));
    }
  }

  lemma {:induction false} PredicateFits(words: seq<Word>, pos: nat)
    requires ParsePredicate(words, pos).Some?
    ensures Segment(words, pos, ParsePredicate(words, pos).value.1) && At(words, pos) == Identifier
  {
    hide ParseOrTerm, ParseOrs, Segment;
    OrTermFits(words, pos);
    OrsFit(words, pos, ParseOrTerm(words, pos).value.1, ParseOrTerm(words, pos).value.0);
  }

  /** Neither a value nor a joining word. */
  predicate IsQuiet(words: seq<Word>, i: nat) {
    !IsValue(At(words, i)) && !Joins(At(words, i))
  }

  ghost predicate Quiet(words: seq<Word>, lo: nat, hi: nat) {
    forall i: nat :: lo <= i < hi ==> IsQuiet(words, i)
  }

  lemma {:induction false} QuietKinds(words: seq<Word>, i: nat)
    ensures RoleOf(At(words, i)) == Other || At(words, i) == Comma || At(words, i) == RParen ==> IsQuiet(words, i)
  {
    hide At;
  }

  lemma {:induction false} ColumnQuiet(words: seq<Word>, pos: nat)
    requires ParseColumn(words, pos).Some?
    ensures Quiet(words, pos, ParseColumn(words, pos).value.1)
  {
    assert RoleOf(Identifier) == Other && RoleOf(KwAs) == Other;
    hide RoleOf, IsQuiet;
    QuietKinds(words, pos);
    QuietKinds(words, pos + 1);
    QuietKinds(words, pos + 2);
  }

  lemma {:induction false} QuietMore(words: seq<Word>, lo: nat, mid: nat, hi: nat)
    requires Quiet(words, lo, mid) && At(words, mid) == Comma && Quiet(words, mid + 1, hi)
    ensures Quiet(words, lo, hi)
  {
    QuietKinds(words, mid);
    hide IsQuiet, At;
  }

  lemma {:induction false} ColumnsQuiet(words: seq<Word>, pos: nat, names: seq<string>, aliases: seq<string>)
    requires ParseColumns(words, pos, names, aliases).Some?
    ensures Quiet(words, pos, ParseColumns(words, pos, names, aliases).value.1)
    decreases |words| - pos
  {
    hide ParseColumn, Quiet;
    var c := ParseColumn(words, pos).value;
    ColumnQuiet(words, pos);
    if At(words, c.1) == Comma {
      ColumnsQuiet(words, c.1 + 1, names + [c.0.0], aliases + [c.0.1]);
      QuietMore(words, pos, c.1, ParseColumns(words, pos, names, aliases).value.1);
    }
  }

  lemma {:induction false} CountQuiet(words: seq<Word>, pos: nat)
    requires At(words, pos) == KwCount && At(words, pos + 1) == LParen && At(words, pos + 2) == Star
    requires At(words, pos + 3) == RParen
    ensures Quiet(words, pos, pos + 4)
  {
    assert RoleOf(KwCount) == Other && RoleOf(LParen) == Other && RoleOf(Star) == Other;
    QuietKinds(words, pos);
    QuietKinds(words, pos + 1);
    QuietKinds(words, pos + 2);
    QuietKinds(words, pos + 3);
    hide RoleOf, IsQuiet, At;
  }

  lemma {:induction false} OneQuiet(words: seq<Word>, pos: nat)
    requires RoleOf(At(words, pos)) == Other
    ensures Quiet(words, pos, pos + 1)
  {
    QuietKinds(words, pos);
    hide RoleOf, IsQuiet, At;
  }

  lemma {:induction false} ProjectionQuiet(words: seq<Word>, pos: nat, distinct: bool)
    requires ParseProjection(words, pos, distinct).Some?
    ensures Quiet(words, pos, ParseProjection(words, pos, distinct).value.1)
  {
    assert RoleOf(Star) == Other;
    hide ParseColumns, RoleOf, Quiet, At;
    if At(words, pos) == KwCount {
      CountQuiet(words, pos);
    } else if At(words, pos) == Star {
      OneQuiet(words, pos);
    } else {
      ColumnsQuiet(words, pos, [], []);
    }
  }

  lemma {:induction false} QuietJoined(words: seq<Word>, lo: nat, mid: nat, hi: nat)
    requires Quiet(words, lo, mid) && Quiet(words, mid, hi)
    ensures Quiet(words, lo, hi)
  {
    hide IsQuiet;
  }

  lemma {:induction false} SelectQuiet(words: seq<Word>)
    requires At(words, 0) == KwSelect
    ensures Quiet(words, 0, Skip(words, 1, KwDistinct))
  {
    assert RoleOf(KwSelect) == Other && RoleOf(KwDistinct) == Other;
    hide RoleOf, Quiet, At;
    OneQuiet(words, 0);
    if At(words, 1) == KwDistinct {
      OneQuiet(words, 1);
      QuietJoined(words, 0, 1, 2);
    }
  }

  lemma {:induction false} FromQuiet(words: seq<Word>, pos: nat)
    requires ParseFrom(words, pos).Some?
    ensures ParseFrom(words, pos).value.1 == pos + 2 && Quiet(words, pos, pos + 2)
  {
    assert RoleOf(KwFrom) == Other && RoleOf(Identifier) == Other;
    hide RoleOf, Quiet, At;
    OneQuiet(words, pos);
    OneQuiet(words, pos + 1);
    QuietJoined(words, pos, pos + 1, pos + 2);
  }

  lemma {:induction false} HeadQuiet(words: seq<Word>)
    requires ParseHead(words).Some?
    ensures ParseHead(words).value.1 > 0 && Quiet(words, 0, ParseHead(words).value.1)
  {
    hide ParseProjection, RoleOf, Quiet, At, Skip, ParseFrom;
    var pos := Skip(words, 1, KwDistinct);
    var projection := ParseProjection(words, pos, At(words, 1) == KwDistinct).value;
    SelectQuiet(words);
    ProjectionQuiet(words, pos, At(words, 1) == KwDistinct);
    FromQuiet(words, projection.1);
    QuietJoined(words, 0, pos, projection.1);
    QuietJoined(words, 0, projection.1, projection.1 + 2);
  }

  lemma {:induction false} OrderItemQuiet(words: seq<Word>, pos: nat)
    requires ParseOrderItem(words, pos).Some?
    ensures Quiet(words, pos, ParseOrderItem(words, pos).value.1)
  {
    assert RoleOf(Identifier) == Other && RoleOf(KwAsc) == Other && RoleOf(KwDesc) == Other;
    hide RoleOf, IsQuiet;
    QuietKinds(words, pos);
    QuietKinds(words, pos + 1);
  }

  lemma {:induction false} OrderByQuiet(words: seq<Word>, pos: nat, items: seq<OrderItem>)
    requires ParseOrderBy(words, pos, items).Some?
    ensures Quiet(words, pos, ParseOrderBy(words, pos, items).value.1)
    decreases |words| - pos
  {
    hide ParseOrderItem, Quiet;
    var item := ParseOrderItem(words, pos).value;
    OrderItemQuiet(words, pos);
    if At(words, item.1) == Comma {
      OrderByQuiet(words, item.1 + 1, items + [item.0]);
      QuietMore(words, pos, item.1, ParseOrderBy(words, pos, items).value.1);
    }
  }

  lemma {:induction false} QuietFits(words: seq<Word>, lo: nat, hi: nat)
    requires lo < hi && Quiet(words, lo, hi)
    ensures Segment(words, lo, hi)
  {
    hide RoleOf, At;
    assert IsQuiet(words, hi - 1);
    forall i: nat | lo <= i < hi - 1
      ensures Fits(words, i)
    {
      assert IsQuiet(words, i);
    }
  }

  lemma {:induction false} QuietAfter(words: seq<Word>, lo: nat, mid: nat, hi: nat)
    requires Adjacent(words, lo, mid) && lo <= mid < hi && Quiet(words, mid, hi)
    ensures Segment(words, lo, hi)
  {
    hide RoleOf, At, Fits;
    QuietFits(words, mid, hi);
  }

  lemma {:induction false} OrderJoins(words: seq<Word>, lo: nat, pos: nat, hi: nat)
    requires Segment(words, lo, pos) && At(words, pos) == KwOrder && At(words, pos + 1) == KwBy
    requires pos + 2 < hi && Quiet(words, pos + 2, hi)
    ensures Segment(words, lo, hi)
  {
    assert RoleOf(KwOrder) == Join && RoleOf(KwBy) == Other;
    QuietKinds(words, pos + 1);
    hide RoleOf, At, IsQuiet;
    OneMore(words, lo, pos);
    assert Fits(words, pos);
    hide Fits;
    QuietAfter(words, lo, pos + 1, hi);
  }

  lemma {:induction false} OrderFits(words: seq<Word>, lo: nat, pos: nat)
    requires Segment(words, lo, pos) && ParseOrder(words, pos).Some?
    ensures Segment(words, lo, ParseOrder(words, pos).value.1) && pos <= ParseOrder(words, pos).value.1
  {
    hide ParseOrderBy, Segment;
    if At(words, pos) == KwOrder {
      OrderByQuiet(words, pos + 2, []);
      OrderJoins(words, lo, pos, ParseOrder(words, pos).value.1);
    }
  }

  lemma {:induction false} CountFits(words: seq<Word>, lo: nat, pos: nat)
    requires Segment(words, lo, pos) && Joins(At(words, pos)) && At(words, pos + 1) == NumberLiteral
    ensures Segment(words, lo, pos + 2)
  {
    assert RoleOf(NumberLiteral) == Operand;
    hide RoleOf, At;
    assert Fits(words, pos - 1) && Fits(words, pos);
    hide Fits;
  }

  lemma {:induction false} LimitFits(words: seq<Word>, lo: nat, pos: nat)
    requires Segment(words, lo, pos) && ParseLimit(words, pos).Some?
    ensures Segment(words, lo, ParseLimit(words, pos).value.1)
  {
    hide Segment, Atoi;
    if At(words, pos) == KwLimit {
      CountFits(words, lo, pos);
    }
  }

  lemma {:induction false} OffsetFits(words: seq<Word>, lo: nat, pos: nat)
    requires Segment(words, lo, pos) && ParseOffset(words, pos).Some?
    ensures Segment(words, lo, ParseOffset(words, pos).value.1)
  {
    hide Segment, Atoi;
    if At(words, pos) == KwOffset {
      CountFits(words, lo, pos);
    }
  }

  lemma {:induction false} TailFits(words: seq<Word>, lo: nat, pos: nat)
    requires Segment(words, lo, pos) && ParseTail(words, pos).Some? && EndsOnce(words)
    ensures Adjacent(words, lo, |words| - 1)
  {
    hide ParseOrder, ParseLimit, ParseOffset;
    var order := ParseOrder(words, pos).value;
    var limit := ParseLimit(words, order.1).value;
    var offset := ParseOffset(words, limit.1).value;
    OrderFits(words, lo, pos);
    LimitFits(words, lo, order.1);
    OffsetFits(words, lo, limit.1);
    assert words[offset.1].kind == End;
    OneMore(words, lo, offset.1);
  }

  /** In a statement that parses every word fits the next. */
  lemma {:induction false} StatementFits(words: seq<Word>)
    requires ParseStatement(words).Some? && EndsOnce(words)
    ensures Adjacent(words, 0, |words| - 1)
  {
    hide ParseHead, ParsePredicate, ParseTail;
    var pos := ParseHead(words).value.1;
    HeadQuiet(words);
    QuietFits(words, 0, pos);
    if At(words, pos) == KwWhere {
      var filter := ParsePredicate(words, pos + 1).value;
      PredicateFits(words, pos + 1);
      WhereFits(words, pos, filter.1);
      TailFits(words, 0, filter.1);
    } else {
      TailFits(words, 0, pos);
    }
  }

  lemma {:induction false} WhereFits(words: seq<Word>, pos: nat, hi: nat)
    requires Segment(words, 0, pos) && Quiet(words, 0, pos) && At(words, pos) == KwWhere && Segment(words, pos + 1, hi)
    ensures Segment(words, 0, hi)
  {
    assert RoleOf(KwWhere) == Other;
    hide RoleOf, At;
    assert IsQuiet(words, pos - 1);
    assert Fits(words, pos - 1) && Fits(words, pos);
    hide Fits;
  }

  // ---- a glued literal shows ----------------------------------------------

  predicate MisfitAt(words: seq<Word>, i: nat) {
    i + 1 < |words| && words[i].kind == Parameter && !Closes(words[i + 1].kind)
  }

  /** Some parameter stands in front of a word that cannot follow a value. */
  ghost predicate Misfit(words: seq<Word>) {
    exists i: nat :: MisfitAt(words, i)
  }

  lemma {:induction false} MisfitBehind(w: Word, words: seq<Word>)
    requires Misfit(words)
    ensures Misfit([w] + words)
  {
    hide Closes;
    var i: nat :| MisfitAt(words, i);
    assert ([w] + words)[i + 1] == words[i] && ([w] + words)[i + 2] == words[i + 1];
    assert MisfitAt([w] + words, i + 1);
  }

  lemma {:induction false} MisfitInFront(w: Word, words: seq<Word>)
    requires words != [] && w.kind == Parameter && !Closes(words[0].kind)
    ensures Misfit([w] + words)
  {
    assert MisfitAt([w] + words, 0);
  }

  /** Words that hold a misfit are no statement. */
  lemma {:induction false} StatementHasNoMisfit(words: seq<Word>)
    requires EndsOnce(words) && ParseStatement(words).Some?
    ensures !Misfit(words)
  {
    hide ParseStatement, EndsOnce;
    StatementFits(words);
    assert RoleOf(Parameter) == Operand;
    hide RoleOf;
    forall i: nat | i + 1 < |words|
      ensures !MisfitAt(words, i)
    {
      assert Fits(words, i);
    }
  }

  ghost predicate AllFit(words: seq<Word>) {
    forall i: nat :: i + 1 < |words| ==> Fits(words, i)
  }

  lemma {:induction false} RestFits(w: Word, words: seq<Word>)
    requires AllFit([w] + words) && words != []
    ensures AllFit(words)
    ensures (IsValue(w.kind) ==> Closes(words[0].kind)) && (Joins(w.kind) ==> !Closes(words[0].kind))
  {
    var all := [w] + words;
    assert Fits(all, 0);
    forall i: nat | i + 1 < |words|
      ensures Fits(words, i)
    {
      assert Fits(all, i + 1) && At(all, i + 1) == At(words, i) && At(all, i + 2) == At(words, i + 1);
    }
  }

  /** The words of a text, if it has any. */
  ghost function WordsOf(s: string): (r: Option<seq<Word>>) {
    match Lex(s, 0) case None => None case Some(tokens) => Some(Plain(tokens))
  }

  lemma {:induction false} WordsAnywhere(s: string, at: nat, at': nat)
    ensures Lex(s, at).Some? == Lex(s, at').Some?
    ensures Lex(s, at).Some? ==> Plain(Lex(s, at).value) == Plain(Lex(s, at').value)
    decreases |s|
  {
    hide First;
    if s != "" {
      FirstInRange(s);
      match First(s)
      case Bad =>
      case Blank => WordsAnywhere(s[1..], at + 1, at' + 1);
      case Lexed(w, n) =>
        WordsAnywhere(s[n..], at + n, at' + n);
        if Lex(s, at).Some? {
          LexCons(s, at, w, n);
          LexCons(s, at', w, n);
        }
    }
  }

  lemma {:induction false} WordsOfNone()
    ensures WordsOf("") == Some([Word(End, "")])
  {
    assert Plain(Lex("", 0).value) == [Word(End, "")];
  }

  lemma {:induction false} WordsOfBlank(s: string)
    requires s != "" && First(s).Blank?
    ensures WordsOf(s) == WordsOf(s[1..])
  {
    hide First, Plain;
    WordsAnywhere(s[1..], 0, 1);
  }

  lemma {:induction false} WordsOfLexed(s: string, w: Word, n: nat)
    requires 0 < n <= |s| && First(s) == Lexed(w, n)
    ensures WordsOf(s).Some? == WordsOf(s[n..]).Some?
    ensures WordsOf(s).Some? ==> WordsOf(s).value == [w] + WordsOf(s[n..]).value
  {
    hide First, Plain;
    WordsAnywhere(s[n..], 0, n);
    if Lex(s, 0).Some? {
      LexCons(s, 0, w, n);
    }
  }

  lemma {:induction false} WordsOfBad(s: string)
    requires s != "" && First(s).Bad?
    ensures WordsOf(s).None?
  {
    hide First;
  }

  lemma {:induction false} SomeWord(s: string)
    requires WordsOf(s).Some?
    ensures WordsOf(s).value != []
    decreases |s|
  {
    hide First;
    if s != "" {
      FirstInRange(s);
      match First(s)
      case Blank =>
        WordsOfBlank(s);
        SomeWord(s[1..]);
      case Lexed(w, n) => WordsOfLexed(s, w, n);
    }
  }

  lemma {:induction false} TemplateBlank(s: string, prev: Kind, k: nat, single: bool)
    requires s != "" && First(s).Blank?
    ensures var t := Template(s, prev, k, single);
            t != "" && First(t).Blank? && t[1..] == Template(s[1..], prev, k, single)
  {
    var t := Template(s, prev, k, single);
    assert t == [s[0]] + Template(s[1..], prev, k, single);
    BlankAlike(s, t);
  }

  /** A word that is not lifted starts the template of what it starts. */
  lemma {:induction false} TemplateKept(s: string, prev: Kind, k: nat, single: bool, w: Word, n: nat)
    requires 0 < n <= |s| && First(s) == Lexed(w, n) && !Lifts(prev, w.kind) && (n < |s| ==> !First(s[n..]).Bad?)
    ensures var t := Template(s, prev, k, single);
            n <= |t| && t != "" && First(t) == Lexed(w, n) && t[n..] == Template(s[n..], w.kind, k, single)
  {
    hide First, Lifts, Name;
    var t, rest := Template(s, prev, k, single), Template(s[n..], w.kind, k, single);
    assert t == s[..n] + rest && t[n..] == rest;
    if n < |s| {
      TemplateHead(s[n..], w.kind, k, single);
      assert t[n] == rest[0] && s[n..][0] == s[n];
    }
    hide Template;
    SameFirst(s, t);
  }

  lemma {:induction false} TemplateLifted(s: string, prev: Kind, k: nat, single: bool, w: Word, n: nat)
    requires 0 < n <= |s| && First(s) == Lexed(w, n) && Lifts(prev, w.kind)
    ensures Template(s, prev, k, single) == ":" + Name(single, k) + Template(s[n..], w.kind, k + 1, single)
  {
    hide First, Lifts, Name;
  }

  lemma {:induction false} ColonIsParameter(t: string)
    requires t != "" && t[0] == ':'
    ensures !First(t).Blank? && (First(t).Lexed? ==> First(t).word.kind == Parameter)
  {
  }

  /** The first word of a template has the kind of the source's first word, or is a parameter for a literal. */
  lemma {:induction false} TemplateStarts(s: string, prev: Kind, k: nat, single: bool)
    requires WordsOf(s).Some? && WordsOf(Template(s, prev, k, single)).Some?
    ensures WordsOf(s).value != [] && WordsOf(Template(s, prev, k, single)).value != []
    ensures var a, b := WordsOf(s).value[0].kind, WordsOf(Template(s, prev, k, single)).value[0].kind;
            b == a || b == Parameter
    decreases |s|
  {
    hide First, Lifts, WordsOf;
    var t := Template(s, prev, k, single);
    SomeWord(s);
    SomeWord(t);
    if s != "" {
      FirstInRange(s);
      match First(s)
      case Bad => WordsOfBad(s);
      case Blank =>
        TemplateBlank(s, prev, k, single);
        WordsOfBlank(s);
        WordsOfBlank(t);
        hide Template;
        TemplateStarts(s[1..], prev, k, single);
      case Lexed(w, n) =>
        WordsOfLexed(s, w, n);
        NotBadNext(s, w, n);
        if Lifts(prev, w.kind) {
          TemplateLifted(s, prev, k, single, w, n);
          hide Template, Name;
          ColonIsParameter(t);
          FirstInRange(t);
          if First(t).Bad? {
            WordsOfBad(t);
          } else {
            WordsOfLexed(t, First(t).word, First(t).len);
          }
        } else {
          TemplateKept(s, prev, k, single, w, n);
          hide Template;
          WordsOfLexed(t, w, n);
        }
    }
  }

  lemma {:induction false} NotBadNext(s: string, w: Word, n: nat)
    requires 0 < n <= |s| && First(s) == Lexed(w, n) && WordsOf(s).Some?
    ensures n < |s| ==> !First(s[n..]).Bad?
  {
    hide First;
    LexesOn(s, 0, w, n);
  }

  /** A word that starts with a letter takes the whole stretch of identifier characters. */
  lemma {:induction false} WordStretch(s: string)
    requires s != "" && IsIdentifierStart(s[0]) && !First(s).Bad?
    ensures First(s).Lexed? && First(s).len == Stretch(IsIdentifierChar, s, 1)
    ensures var k := First(s).word.kind; !IsLiteral(k) && k != Comma && k != RParen && k != End
  {
    hide Upper;
  }

  /** A parameter swallows the word glued to it. */
  lemma {:induction false} Swallows(name: string, word: string, rest: string)
    requires name != "" && IsIdentifierStart(name[0]) && (forall i :: 0 <= i < |name| ==> IsIdentifierChar(name[i]))
    requires (forall i :: 0 <= i < |word| ==> IsIdentifierChar(word[i])) && (rest != "" ==> !IsIdentifierChar(rest[0]))
    ensures var t := ":" + name + (word + rest);
            && t != ""
            && (First(t).Bad? || First(t) == Lexed(Word(Parameter, name + word), 1 + |name| + |word|))
            && t[1 + |name| + |word|..] == rest
  {
    var t, n := ":" + name + (word + rest), 1 + |name| + |word|;
    assert t[0] == ':' && t[1..n] == name + word && t[n..] == rest;
    assert forall i :: 1 <= i < n ==> t[i] == (name + word)[i - 1];
    assert forall i :: 0 <= i < |name + word| ==> IsIdentifierChar((name + word)[i]);
    StretchUnique(IsIdentifierChar, t, 2, n);
  }

  /**
   A literal glued to a word in a text whose words fit: the word joins, and the one behind it cannot follow a value.
   */
  lemma {:induction false} GluedJoins(s: string, w: Word, n: nat)
    requires 0 < n < |s| && First(s) == Lexed(w, n) && IsLiteral(w.kind) && IsIdentifierStart(s[n])
    requires WordsOf(s).Some? && AllFit(WordsOf(s).value)
    ensures var s1 := s[n..];
            && First(s1).Lexed? && 0 < First(s1).len <= |s1| && !IsLiteral(First(s1).word.kind)
            && First(s1).len == Stretch(IsIdentifierChar, s1, 1) && WordsOf(s1).Some?
            && WordsOf(s1[First(s1).len..]).Some? && WordsOf(s1[First(s1).len..]).value != []
            && !Closes(WordsOf(s1[First(s1).len..]).value[0].kind)
  {
    hide First, WordsOf, AllFit, Stretch;
    var s1 := s[n..];
    WordsOfLexed(s, w, n);
    NotBadNext(s, w, n);
    WordStretch(s1);
    var w1, m := First(s1).word, First(s1).len;
    WordsOfLexed(s1, w1, m);
    SomeWord(s1[m..]);
    RestFits(w, WordsOf(s1).value);
    RestFits(w1, WordsOf(s1[m..]).value);
  }

  /** The template there: the parameter with the word it swallowed, then the template of the rest. */
  lemma {:induction false} SwallowedText(s: string, prev: Kind, k: nat, single: bool, w: Word, n: nat, w1: Word, m: nat)
    requires 0 < n < |s| && First(s) == Lexed(w, n) && Lifts(prev, w.kind) && IsIdentifierStart(s[n]) && k < 100000
    requires 0 < m <= |s| - n && First(s[n..]) == Lexed(w1, m) && !IsLiteral(w1.kind)
    requires m == Stretch(IsIdentifierChar, s[n..], 1) && (m < |s| - n ==> !First(s[n..][m..]).Bad?)
    ensures var t, rest := Template(s, prev, k, single), Template(s[n..][m..], w1.kind, k + 1, single);
            && t != "" && !First(t).Blank?
            && (First(t).Lexed? ==> First(t).word.kind == Parameter && t[First(t).len..] == rest)
  {
    var s1 := s[n..];
    assert s1[0] == s[n] && !Lifts(w.kind, w1.kind);
    hide First, Name, Stretch, Lifts;
    TemplateLifted(s, prev, k, single, w, n);
    TemplateOfKept(s1, w.kind, k + 1, single, w1, m);
    NameIsWord(single, k);
    EndsStretch(s1, w1.kind, k + 1, single, m);
    hide Template, IsIdentifierChar, IsIdentifierStart;
    Swallows(Name(single, k), s1[..m], Template(s1[m..], w1.kind, k + 1, single));
  }

  /** Where the first lexeme is a glued literal, the words of the template show it. */
  lemma {:induction false} SwallowedShows(s: string, prev: Kind, k: nat, single: bool, w: Word, n: nat)
    requires 0 < n < |s| && First(s) == Lexed(w, n) && Lifts(prev, w.kind) && IsIdentifierStart(s[n]) && k < 100000
    requires WordsOf(s).Some? && AllFit(WordsOf(s).value) && WordsOf(Template(s, prev, k, single)).Some?
    ensures Misfit(WordsOf(Template(s, prev, k, single)).value)
  {
    assert IsLiteral(w.kind) && !Closes(Parameter);
    hide First, WordsOf, AllFit, Misfit, Closes, RoleOf, Name, Stretch, Lifts, Template;
    var s1, t := s[n..], Template(s, prev, k, single);
    GluedJoins(s, w, n);
    var w1, m := First(s1).word, First(s1).len;
    NotBadNext(s1, w1, m);
    SwallowedText(s, prev, k, single, w, n, w1, m);
    if First(t).Bad? {
      WordsOfBad(t);
    } else {
      var rest := Template(s1[m..], w1.kind, k + 1, single);
      FirstInRange(t);
      WordsOfLexed(t, First(t).word, First(t).len);
      TemplateStarts(s1[m..], w1.kind, k + 1, single);
      MisfitInFront(First(t).word, WordsOf(rest).value);
    }
  }

  lemma {:induction false} TemplateOfKept(s: string, prev: Kind, k: nat, single: bool, w: Word, n: nat)
    requires 0 < n <= |s| && First(s) == Lexed(w, n) && !Lifts(prev, w.kind)
    ensures Template(s, prev, k, single) == s[..n] + Template(s[n..], w.kind, k, single)
  {
    hide First, Lifts, Name;
  }

  /** Behind the stretch of a word the template does not go on with an identifier character. */
  lemma {:induction false} EndsStretch(s: string, prev: Kind, k: nat, single: bool, m: nat)
    requires s != "" && IsIdentifierStart(s[0]) && m == Stretch(IsIdentifierChar, s, 1)
    requires m < |s| ==> !First(s[m..]).Bad?
    ensures forall i :: 0 <= i < m ==> IsIdentifierChar(s[..m][i])
    ensures var t := Template(s[m..], prev, k, single); t != "" ==> !IsIdentifierChar(t[0])
  {
    hide First, Name;
    if m < |s| {
      TemplateHead(s[m..], prev, k, single);
      assert s[m..][0] == s[m];
    }
  }

  /** If some literal of a text whose words fit together is glued, the words of its template hold a misfit. */
  lemma {:induction false} GluedShows(s: string, prev: Kind, k: nat, single: bool)
    requires WordsOf(s).Some? && AllFit(WordsOf(s).value) && Glued(s, prev) && k + |s| < 100000
    ensures WordsOf(Template(s, prev, k, single)).Some? ==> Misfit(WordsOf(Template(s, prev, k, single)).value)
    decreases |s|, 1
  {
    hide First, Lifts, WordsOf, AllFit, Misfit, Name, Template, IsIdentifierStart;
    var t := Template(s, prev, k, single);
    FirstInRange(s);
    if WordsOf(t).Some? {
      match First(s)
      case Blank =>
        TemplateBlank(s, prev, k, single);
        WordsOfBlank(s);
        WordsOfBlank(t);
        GluedShows(s[1..], prev, k, single);
      case Lexed(w, n) =>
        if Lifts(prev, w.kind) && n < |s| && IsIdentifierStart(s[n]) {
          SwallowedShows(s, prev, k, single, w, n);
        } else {
          LaterShows(s, prev, k, single, w, n);
        }
    }
  }

  lemma {:induction false} LaterShows(s: string, prev: Kind, k: nat, single: bool, w: Word, n: nat)
    requires 0 < n <= |s| && First(s) == Lexed(w, n) && !(Lifts(prev, w.kind) && n < |s| && IsIdentifierStart(s[n]))
    requires WordsOf(s).Some? && AllFit(WordsOf(s).value) && Glued(s, prev) && k + |s| < 100000
    requires WordsOf(Template(s, prev, k, single)).Some?
    ensures Misfit(WordsOf(Template(s, prev, k, single)).value)
    decreases |s|, 0
  {
    hide First, Lifts, WordsOf, AllFit, Misfit, Name, Template, IsIdentifierStart, IsIdentifierChar;
    var t, k' := Template(s, prev, k, single), if Lifts(prev, w.kind) then k + 1 else k;
    var rest := Template(s[n..], w.kind, k', single);
    WordsOfLexed(s, w, n);
    SomeWord(s[n..]);
    RestFits(w, WordsOf(s[n..]).value);
    NotBadNext(s, w, n);
    if Lifts(prev, w.kind) {
      AfterLiteral(s, w, n, prev, k', single);
      NameIsWord(single, k);
      TemplateLifted(s, prev, k, single, w, n);
      ParameterReadBack(Name(single, k), rest);
      assert t[1 + |Name(single, k)|..] == rest;
      WordsOfLexed(t, Word(Parameter, Name(single, k)), 1 + |Name(single, k)|);
    } else {
      TemplateKept(s, prev, k, single, w, n);
      WordsOfLexed(t, w, n);
    }
    GluedShows(s[n..], w.kind, k', single);
    MisfitBehind(First(t).word, WordsOf(rest).value);
  }
}
