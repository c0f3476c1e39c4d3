/**
 Lifting match values out of a query: the template sent to the server has the source's words with parameters for
 literals.
 */
module Lifting {
  import opened Base
  import opened Tokenizer

  predicate IsLiteral(kind: Kind) { kind == StringLiteral || kind == NumberLiteral }

  /** Every literal is a match value, except the number after LIMIT or OFFSET. */
  predicate Lifts(prev: Kind, kind: Kind) {
    IsLiteral(kind) && !((prev == KwLimit || prev == KwOffset) && kind == NumberLiteral)
  }

  function Decimal(n: nat): (s: string) {
    (if n < 10 then "" else Decimal(n / 10)) + [('0' as int + n % 10) as char]
  }

  /** A lone value becomes :v, several become :v0, :v1 and so on. */
  function Name(single: bool, k: nat): (s: string) {
    if single then "v" else "v" + Decimal(k)
  }

  // ---- simultaneous substitution ------------------------------------------

  /** The text with every lifted literal replaced by its parameter, and everything else, blanks included, kept. */
  function Template(s: string, prev: Kind, k: nat, single: bool): (t: string)
    decreases |s|
  {
    if s == "" then ""
    else match First(s)
      case Bad => s
      case Blank => [s[0]] + Template(s[1..], prev, k, single)
      case Lexed(word, len) =>
        if Lifts(prev, word.kind) then ":" + Name(single, k) + Template(s[len..], word.kind, k + 1, single)
        else s[..len] + Template(s[len..], word.kind, k, single)
  }

  /** The same replacement on words. */
  function LiftWords(words: seq<Word>, prev: Kind, k: nat, single: bool): (r: seq<Word>)
    ensures |r| == |words|
  {
    if words == [] then []
    else
      var w := words[0];
      if Lifts(prev, w.kind) then [Word(Parameter, Name(single, k))] + LiftWords(words[1..], w.kind, k + 1, single)
      else [w] + LiftWords(words[1..], w.kind, k, single)
  }

  /** Some lifted literal is directly followed by a letter or an underscore. */
  predicate Glued(s: string, prev: Kind)
    decreases |s|
  {
    if s == "" then false
    else match First(s)
      case Bad => false
      case Blank => Glued(s[1..], prev)
      case Lexed(word, len) =>
        || (Lifts(prev, word.kind) && len < |s| && IsIdentifierStart(s[len]))
        || Glued(s[len..], word.kind)
  }

  // ---- a lexeme and what follows it ---------------------------------------

  /** t starts with the first n characters of s, and goes on with the same character or with a colon. */
  predicate SameStart(s: string, t: string, n: nat) {
    && n <= |s| && n <= |t| && s[..n] == t[..n]
    && (n < |t| ==> (n < |s| && t[n] == s[n]) || t[n] == ':')
  }

  lemma {:induction false} SameStretch(p: char -> bool, s: string, t: string, j: nat)
    requires j <= |s| && SameStart(s, t, Stretch(p, s, j)) && !p(':')
    ensures j <= |t| && Stretch(p, t, j) == Stretch(p, s, j)
  {
    var n := Stretch(p, s, j);
    assert forall i :: 0 <= i < n ==> t[i] == t[..n][i] && s[i] == s[..n][i];
    StretchUnique(p, t, j, n);
  }

  lemma {:induction false} SameString(s: string, t: string)
    requires s != "" && FirstString(s).Lexed? && SameStart(s, t, FirstString(s).len)
    ensures FirstString(t) == FirstString(s)
  {
    var n := FirstString(s).len;
    assert forall i :: 0 <= i < n ==> t[i] == t[..n][i] && s[i] == s[..n][i];
    assert t[1..n - 1] == t[..n][1..n - 1] && s[1..n - 1] == s[..n][1..n - 1];
    StretchUnique(c => c != t[0], t, 1, n - 1);
    StretchUnique(c => c != s[0], s, 1, n - 1);
  }

  /** The lexeme at the start of s is also the lexeme at the start of t. */
  lemma {:induction false} SameFirst(s: string, t: string)
    requires s != "" && First(s).Lexed? && SameStart(s, t, First(s).len)
    ensures t != "" && First(t) == First(s)
  {
    hide KeywordOrIdentifier, Stretch;
    var n := First(s).len;
    assert s[0] == s[..n][0] && t[0] == t[..n][0];
    if IsIdentifierStart(s[0]) {
      SameStretch(IsIdentifierChar, s, t, 1);
    } else if s[0] == ':' {
      assert t[1..n] == t[..n][1..] && s[1..n] == s[..n][1..];
      assert s[1] == s[..n][1] && t[1] == t[..n][1];
      SameStretch(IsIdentifierChar, s, t, 2);
    } else if IsQuote(s[0]) {
      SameString(s, t);
    } else if IsDigit(s[0]) {
      SameStretch(IsDigit, s, t, 1);
    } else if n == 2 {
      assert s[1] == s[..n][1] && t[1] == t[..n][1];
    }
  }

  // ---- parameters in a template -------------------------------------------

  lemma {:induction false} NameIsWord(single: bool, k: nat)
    requires k < 100000
    ensures var name := Name(single, k);
            0 < |name| <= 6 && IsIdentifierStart(name[0]) && forall i :: 0 <= i < |name| ==> IsIdentifierChar(name[i])
  {
    DecimalIsDigits(k, 5);
  }

  lemma {:induction false} DecimalIsDigits(k: nat, digits: nat)
    requires 0 < digits <= 5 && k < Power10(digits)
    ensures 0 < |Decimal(k)| <= digits && forall i :: 0 <= i < |Decimal(k)| ==> IsDigit(Decimal(k)[i])
  {
    if k >= 10 {
      DecimalIsDigits(k / 10, digits - 1);
    }
  }

  function Power10(n: nat): (p: nat) {
    if n == 0 then 1 else 10 * Power10(n - 1)
  }

  /** A parameter is read back as itself exactly when the text after it does not go on with an identifier character. */
  lemma {:induction false} ParameterReadBack(name: string, t: string)
    requires 0 < |name| <= MAX_IDENTIFIER && IsIdentifierStart(name[0]) && forall i :: 0 <= i < |name| ==>
               IsIdentifierChar(name[i])
    ensures t == "" || !IsIdentifierChar(t[0]) ==> First(":" + name + t) == Lexed(Word(Parameter, name), 1 + |name|)
    ensures t != "" && IsIdentifierChar(t[0]) ==>
              First(":" + name + t).Bad?
                  || (First(":" + name + t).Lexed? && First(":" + name + t).word != Word(Parameter, name))
  {
    var s, n := ":" + name + t, 1 + |name|;
    assert s[1..n] == name;
    assert forall i :: 1 <= i < n ==> s[i] == name[i - 1];
    if t == "" || !IsIdentifierChar(t[0]) {
      StretchUnique(IsIdentifierChar, s, 2, n);
    } else {
      assert s[n] == t[0];
      assert Stretch(IsIdentifierChar, s, 2) > n;
    }
  }

  lemma {:induction false} TemplateHead(s: string, prev: Kind, k: nat, single: bool)
    requires s != "" && !First(s).Bad?
    ensures var t := Template(s, prev, k, single);
            && t != ""
            && if First(s).Lexed? && Lifts(prev, First(s).word.kind) then t[0] == ':' else t[0] == s[0]
  {
    hide First, Name;
  }

  /** The first character tells a literal from an identifier, and a number takes all its digits. */
  lemma {:induction false} FirstCharacter(s: string)
    requires s != "" && !First(s).Bad?
    ensures IsIdentifierStart(s[0]) ==> First(s).Lexed? && !IsLiteral(First(s).word.kind)
    ensures IsDigit(s[0]) ==> First(s).Lexed? && First(s).word.kind == NumberLiteral
    ensures First(s).Lexed? && First(s).word.kind == NumberLiteral && First(s).len < |s| ==> !IsDigit(s[First(s).len])
    ensures First(s).Lexed? && IsLiteral(First(s).word.kind) ==> IsDigit(s[0]) || IsQuote(s[0])
  {
    hide Upper;
  }

  /** What follows a lifted literal in the template goes on the identifier exactly when the source had it glued on. */
  lemma {:induction false} AfterLiteral(s: string, w: Word, n: nat, prev: Kind, k: nat, single: bool)
    requires 0 < n <= |s| && First(s) == Lexed(w, n) && Lifts(prev, w.kind)
    requires n < |s| ==> !First(s[n..]).Bad?
    ensures var t := Template(s[n..], w.kind, k, single);
            (t != "" && IsIdentifierChar(t[0])) <==> (n < |s| && IsIdentifierStart(s[n]))
  {
    hide First;
    FirstCharacter(s);
    if n < |s| {
      TemplateHead(s[n..], w.kind, k, single);
      FirstCharacter(s[n..]);
      assert s[n..][0] == s[n];
    }
  }

  // ---- the words of the template ------------------------------------------

  ghost predicate ReadsBack(s: string, t: string, prev: Kind, k: nat, single: bool, at: nat, at': nat) {
    && Lex(s, at).Some? && Lex(t, at').Some?
    && Plain(Lex(t, at').value) == LiftWords(Plain(Lex(s, at).value), prev, k, single)
  }

  lemma {:induction false} PlainCons(t: Token, rest: seq<Token>)
    ensures Plain([t] + rest) == [t.word] + Plain(rest)
  {
  }

  lemma {:induction false} LexCons(s: string, at: nat, w: Word, n: nat)
    requires 0 < n <= |s| && First(s) == Lexed(w, n) && Lex(s, at).Some?
    ensures Lex(s[n..], at + n).Some? && Plain(Lex(s, at).value) == [w] + Plain(Lex(s[n..], at + n).value)
  {
    hide First;
    PlainCons(Token(w, at), Lex(s[n..], at + n).value);
  }

  lemma {:induction false} LexConsBack(s: string, at: nat, w: Word, n: nat)
    requires 0 < n <= |s| && First(s) == Lexed(w, n) && Lex(s[n..], at + n).Some?
    ensures Lex(s, at).Some?
  {
    hide First;
  }

  lemma {:induction false} LiftCons(w: Word, words: seq<Word>, prev: Kind, k: nat, single: bool)
    ensures LiftWords([w] + words, prev, k, single)
            == [if Lifts(prev, w.kind) then Word(Parameter, Name(single, k)) else w]
               + LiftWords(words, w.kind, if Lifts(prev, w.kind) then k + 1 else k, single)
  {
    hide Name, Lifts;
    assert ([w] + words)[1..] == words;
  }

  lemma {:induction false} ConsEqual(a: Word, x: seq<Word>, b: Word, y: seq<Word>)
    ensures [a] + x == [b] + y <==> a == b && x == y
  {
    assert ([a] + x)[1..] == x && ([b] + y)[1..] == y && ([a] + x)[0] == a && ([b] + y)[0] == b;
  }

  /** One word in front: it must be read back, and then the rest decides. */
  lemma {:induction false} OneWordMore(s: string, w: Word, n: nat, t: string, w': Word, n': nat,
                                       prev: Kind, k: nat, single: bool, at: nat, at': nat)
    requires 0 < n <= |s| && First(s) == Lexed(w, n) && Lex(s, at).Some?
    requires 0 < n' <= |t| && First(t) == Lexed(w', n')
    ensures ReadsBack(s, t, prev, k, single, at, at')
            <==> w' == (if Lifts(prev, w.kind) then Word(Parameter, Name(single, k)) else w)
                 && ReadsBack(s[n..], t[n'..], w.kind, if Lifts(prev, w.kind) then k + 1
                     else k, single, at + n, at' + n')
  {
    hide First, Name, Lifts, LiftWords, Plain;
    LexCons(s, at, w, n);
    var rest := Plain(Lex(s[n..], at + n).value);
    LiftCons(w, rest, prev, k, single);
    if Lex(t[n'..], at' + n').Some? {
      LexConsBack(t, at', w', n');
      LexCons(t, at', w', n');
      ConsEqual(w', Plain(Lex(t[n'..], at' + n').value), if Lifts(prev, w.kind) then Word(Parameter, Name(single, k))
          else w,
                LiftWords(rest, w.kind, if Lifts(prev, w.kind) then k + 1 else k, single));
    }
  }

  lemma {:induction false} BlankAlike(s: string, t: string)
    requires s != "" && t != "" && s[0] == t[0]
    ensures First(s).Blank? ==> First(t).Blank?
  {
  }

  lemma {:induction false} BlankMore(s: string, prev: Kind, k: nat, single: bool, at: nat, at': nat)
    requires s != "" && First(s).Blank?
    ensures ReadsBack(s, Template(s, prev, k, single), prev, k, single, at, at')
            <==> ReadsBack(s[1..], Template(s[1..], prev, k, single), prev, k, single, at + 1, at' + 1)
  {
    hide First, Name, Lifts;
    var t := Template(s, prev, k, single);
    assert t == [s[0]] + Template(s[1..], prev, k, single);
    assert t[1..] == Template(s[1..], prev, k, single);
    hide Template, LiftWords, Plain;
    BlankAlike(s, t);
  }

  lemma {:induction false} BadIsNotRead(s: string, t: string, prev: Kind, k: nat, single: bool, at: nat, at': nat)
    requires t != "" && First(t).Bad?
    ensures !ReadsBack(s, t, prev, k, single, at, at')
  {
    hide First, LiftWords, Plain;
  }

  lemma {:induction false} LiteralMore(s: string, w: Word, n: nat, prev: Kind, k: nat, single: bool, at: nat, at': nat)
    requires 0 < n <= |s| && First(s) == Lexed(w, n) && Lifts(prev, w.kind) && Lex(s, at).Some? && k < 100000
    ensures ReadsBack(s, Template(s, prev, k, single), prev, k, single, at, at')
            <==> !(n < |s| && IsIdentifierStart(s[n]))
                 && ReadsBack(s[n..], Template(s[n..], w.kind, k + 1, single), w.kind, k + 1, single, at + n,
                     at' + 1 + |Name(single, k)|)
  {
    hide First, Name, Lifts, IsIdentifierChar, IsIdentifierStart;
    var t, name := Template(s, prev, k, single), Name(single, k);
    var rest := Template(s[n..], w.kind, k + 1, single);
    LexesOn(s, at, w, n);
    AfterLiteral(s, w, n, prev, k + 1, single);
    NameIsWord(single, k);
    ParameterReadBack(name, rest);
    assert t == ":" + name + rest && t[1 + |name|..] == rest;
    hide Template, ReadsBack;
    if First(t).Bad? {
      BadIsNotRead(s, t, prev, k, single, at, at');
    } else {
      FirstInRange(t);
      OneWordMore(s, w, n, t, First(t).word, First(t).len, prev, k, single, at, at');
    }
  }

  lemma {:induction false} KeptMore(s: string, w: Word, n: nat, prev: Kind, k: nat, single: bool, at: nat, at': nat)
    requires 0 < n <= |s| && First(s) == Lexed(w, n) && !Lifts(prev, w.kind) && Lex(s, at).Some?
    ensures ReadsBack(s, Template(s, prev, k, single), prev, k, single, at, at')
            <==> ReadsBack(s[n..], Template(s[n..], w.kind, k, single), w.kind, k, single, at + n, at' + n)
  {
    hide First, Lifts, Name;
    var t, rest := Template(s, prev, k, single), Template(s[n..], w.kind, k, single);
    LexesOn(s, at, w, n);
    assert t == s[..n] + rest && t[n..] == rest;
    if n < |s| {
      TemplateHead(s[n..], w.kind, k, single);
      assert t[n] == rest[0] && s[n..][0] == s[n];
    }
    hide Template;
    SameFirst(s, t);
    OneWordMore(s, w, n, t, w, n, prev, k, single, at, at');
  }

  lemma {:induction false} LexesOn(s: string, at: nat, w: Word, n: nat)
    requires 0 < n <= |s| && First(s) == Lexed(w, n) && Lex(s, at).Some?
    ensures Lex(s[n..], at + n).Some? && (n < |s| ==> !First(s[n..]).Bad?)
  {
    hide First;
  }

  lemma {:induction false} EmptyReadsBack(prev: Kind, k: nat, single: bool, at: nat, at': nat)
    ensures ReadsBack("", Template("", prev, k, single), prev, k, single, at, at')
  {
    hide First, Name;
    assert Plain(Lex("", at).value) == [Word(End, "")] && Plain(Lex("", at').value) == [Word(End, "")];
    assert LiftWords([Word(End, "")], prev, k, single) == [Word(End, "")];
  }

  /** The template is read back as the source's words with parameters for literals exactly when no literal is glued. */
  lemma {:induction false} TemplateWords(s: string, prev: Kind, k: nat, single: bool, at: nat, at': nat)
    requires Lex(s, at).Some? && k + |s| < 100000
    ensures ReadsBack(s, Template(s, prev, k, single), prev, k, single, at, at') <==> !Glued(s, prev)
    decreases |s|
  {
    hide First, Lifts, Template, ReadsBack, Name, IsIdentifierStart, LiftWords;
    if s == "" {
      EmptyReadsBack(prev, k, single, at, at');
    } else {
      FirstInRange(s);
      match First(s)
      case Blank =>
        BlankMore(s, prev, k, single, at, at');
        TemplateWords(s[1..], prev, k, single, at + 1, at' + 1);
      case Lexed(w, n) =>
        LexesOn(s, at, w, n);
        if Lifts(prev, w.kind) {
          LiteralMore(s, w, n, prev, k, single, at, at');
          TemplateWords(s[n..], w.kind, k + 1, single, at + n, at' + 1 + |Name(single, k)|);
        } else {
          KeptMore(s, w, n, prev, k, single, at, at');
          TemplateWords(s[n..], w.kind, k, single, at + n, at' + n);
        }
    }
  }

  // ---- the right-to-left splice -------------------------------------------

  function OneLiteral(prev: Kind, t: Token): (r: seq<Token>)
    ensures forall i :: 0 <= i < |r| ==> IsLiteral(r[i].word.kind)
    ensures |r| <= 1
  {
    if Lifts(prev, t.word.kind) then [t] else []
  }

  /** The literals to lift, in source order. */
  function Literals(tokens: seq<Token>, prev: Kind): (r: seq<Token>)
    ensures |r| <= |tokens| && forall i :: 0 <= i < |r| ==> IsLiteral(r[i].word.kind)
  {
    if tokens == [] then []
    else OneLiteral(prev, tokens[0]) + Literals(tokens[1..], tokens[0].word.kind)
  }

  /** The characters a literal takes up in the source, quotes included. */
  function Width(w: Word): (n: nat) {
    if w.kind == StringLiteral then |w.text| + 2 else |w.text|
  }

  lemma {:induction false} LiteralWidth(s: string, w: Word, n: nat)
    requires 0 < n <= |s| && First(s) == Lexed(w, n) && IsLiteral(w.kind)
    ensures Width(w) == n
  {
    FirstCharacter(s);
  }

  ghost predicate Remaining(s: string, prev: Kind, at: nat, lits: seq<Token>) {
    Lex(s, at).Some? && Literals(Lex(s, at).value, prev) == lits
  }

  lemma {:induction false} RemainingCons(s: string, w: Word, n: nat, prev: Kind, at: nat, lits: seq<Token>)
    requires 0 < n <= |s| && First(s) == Lexed(w, n) && Remaining(s, prev, at, lits)
    ensures Lifts(prev, w.kind) ==>
              lits != [] && lits[0] == Token(w, at) && Remaining(s[n..], w.kind, at + n, lits[1..])
    ensures !Lifts(prev, w.kind) ==> Remaining(s[n..], w.kind, at + n, lits)
  {
    hide First, Lifts;
    var rest := Lex(s[n..], at + n).value;
    assert ([Token(w, at)] + rest)[1..] == rest;
  }

  /** t copies s up to the next literal, puts the parameter, and goes on behind the literal. */
  ghost predicate NextLiteral(s: string, t: string, at: nat, k: nat, single: bool, lits: seq<Token>) {
    if lits == [] then t == s
    else
      var b := lits[0].pos - at;
      var e := b + Width(lits[0].word);
      && 0 <= b <= e <= |s| && Remaining(s[e..], lits[0].word.kind, at + e, lits[1..])
      && t == s[..b] + ":" + Name(single, k) + Template(s[e..], lits[0].word.kind, k + 1, single)
  }

  lemma {:induction false} SkipPiece(s: string, n: nat, t: string, at: nat, k: nat, single: bool, lits: seq<Token>)
    requires n <= |s| && NextLiteral(s[n..], t, at + n, k, single, lits)
    ensures NextLiteral(s, s[..n] + t, at, k, single, lits)
  {
    hide Width, Name, Template, Remaining;
    if lits == [] {
      assert s[..n] + s[n..] == s;
    } else {
      var b := lits[0].pos - at - n;
      var e := b + Width(lits[0].word);
      assert s[n..][e..] == s[n + e..];
      assert s[..n] + s[n..][..b] == s[..n + b];
    }
  }

  lemma {:induction false} ToNextLiteral(s: string, prev: Kind, at: nat, k: nat, single: bool, lits: seq<Token>)
    requires Remaining(s, prev, at, lits)
    ensures NextLiteral(s, Template(s, prev, k, single), at, k, single, lits)
    decreases |s|
  {
    hide First, Lifts, Name, Width, NextLiteral;
    if s == "" {
      EndLiftsNothing(prev, at);
      NothingNext(at, k, single);
    } else {
      FirstInRange(s);
      match First(s)
      case Blank =>
        ToNextLiteral(s[1..], prev, at + 1, k, single, lits);
        SkipPiece(s, 1, Template(s[1..], prev, k, single), at, k, single, lits);
        assert s[..1] == [s[0]];
      case Lexed(w, n) =>
        RemainingCons(s, w, n, prev, at, lits);
        if Lifts(prev, w.kind) {
          LiteralNext(s, w, n, prev, at, k, single, lits);
        } else {
          ToNextLiteral(s[n..], w.kind, at + n, k, single, lits);
          SkipPiece(s, n, Template(s[n..], w.kind, k, single), at, k, single, lits);
        }
    }
  }

  lemma {:induction false} NothingNext(at: nat, k: nat, single: bool)
    ensures NextLiteral("", "", at, k, single, [])
  {
  }

  lemma {:induction false} LiteralNext(s: string, w: Word, n: nat, prev: Kind, at: nat, k: nat, single: bool,
                                       lits: seq<Token>)
    requires 0 < n <= |s| && First(s) == Lexed(w, n) && Lifts(prev, w.kind)
    requires lits != [] && lits[0] == Token(w, at) && Remaining(s[n..], w.kind, at + n, lits[1..])
    ensures NextLiteral(s, Template(s, prev, k, single), at, k, single, lits)
  {
    hide First, Name, Width, Remaining;
    LiteralWidth(s, w, n);
    assert s[..0] == "";
  }

  lemma {:induction false} EndLiftsNothing(prev: Kind, at: nat)
    ensures Literals([Token(Word(End, ""), at)], prev) == []
  {
  }

  // Where literal i - 1 ends, and its kind: the place from which literals i and later remain.
  function EndOf(lits: seq<Token>, i: nat): (e: nat)
    requires i <= |lits|
  {
    if i == 0 then 0 else lits[i - 1].pos + Width(lits[i - 1].word)
  }

  function KindOf(lits: seq<Token>, i: nat): (k: Kind)
    requires i <= |lits|
  {
    if i == 0 then End else lits[i - 1].word.kind
  }

  lemma {:induction false} RemainingAfter(src: string, lits: seq<Token>, i: nat)
    requires Remaining(src, End, 0, lits) && i <= |lits|
    ensures EndOf(lits, i) <= |src| && Remaining(src[EndOf(lits, i)..], KindOf(lits, i), EndOf(lits, i), lits[i..])
  {
    hide Remaining, Template, Width, Name;
    if i == 0 {
      assert src[0..] == src && lits[0..] == lits;
    } else {
      RemainingAfter(src, lits, i - 1);
      var e := EndOf(lits, i - 1);
      ToNextLiteral(src[e..], KindOf(lits, i - 1), e, 0, true, lits[i - 1..]);
      assert lits[i - 1..][1..] == lits[i..];
      assert src[e..][EndOf(lits, i) - e..] == src[EndOf(lits, i)..];
    }
  }

  /** The text once literals i and later have been spliced. */
  function SplicedFrom(src: string, lits: seq<Token>, i: nat, single: bool): (t: string)
    requires i <= |lits| && EndOf(lits, i) <= |src|
  {
    src[..EndOf(lits, i)] + Template(src[EndOf(lits, i)..], KindOf(lits, i), i, single)
  }

  lemma {:induction false} SpliceOne(src: string, lits: seq<Token>, i: nat, single: bool, templated: string)
    requires Remaining(src, End, 0, lits) && 0 < i <= |lits| && EndOf(lits, i) <= |src|
    requires templated == SplicedFrom(src, lits, i, single)
    ensures EndOf(lits, i - 1) <= lits[i - 1].pos <= EndOf(lits, i) <= |templated|
    ensures templated[..lits[i - 1].pos] + ":" + Name(single, i - 1) + templated[EndOf(lits, i)..]
            == SplicedFrom(src, lits, i - 1, single)
  {
    hide Remaining, Template, Width, Name;
    var e, e', b := EndOf(lits, i - 1), EndOf(lits, i), lits[i - 1].pos;
    RemainingAfter(src, lits, i - 1);
    ToNextLiteral(src[e..], KindOf(lits, i - 1), e, i - 1, single, lits[i - 1..]);
    assert src[e..][e' - e..] == src[e'..];
    assert templated[..b] == src[..b] && templated[e'..] == Template(src[e'..], KindOf(lits, i), i, single);
    assert src[..e] + src[e..][..b - e] == src[..b];
  }

  lemma {:induction false} LiteralsStep(tokens: seq<Token>, prev: Kind, j: nat, lits: seq<Token>)
    requires j < |tokens|
    ensures lits + Literals(tokens[j..], prev)
            == (if Lifts(prev, tokens[j].word.kind) then lits + [tokens[j]] else lits)
                + Literals(tokens[j + 1..], tokens[j].word.kind)
  {
    hide Lifts;
    assert tokens[j..][1..] == tokens[j + 1..];
  }

  lemma {:induction false} NoTokensNoLiterals(prev: Kind)
    ensures Literals([], prev) == []
  {
  }

  method CollectLiterals(tokens: seq<Token>) returns (lits: seq<Token>)
    ensures lits == Literals(tokens, End)
  {
    hide Lifts, Literals;
    lits := [];
    var prev := End;
    assert tokens[0..] == tokens;
    for j := 0 to |tokens|
      invariant Literals(tokens, End) == lits + Literals(tokens[j..], prev)
    {
      LiteralsStep(tokens, prev, j, lits);
      if Lifts(prev, tokens[j].word.kind) {
        lits := lits + [tokens[j]];
      }
      prev := tokens[j].word.kind;
    }
    NoTokensNoLiterals(prev);
    assert tokens[|tokens|..] == [];
  }

  /** Splicing from the last literal to the first equals substituting all of them at once. */
  method Splice(src: string, tokens: seq<Token>, lits: seq<Token>) returns (templated: string)
    requires Lex(src, 0) == Some(tokens) && lits == Literals(tokens, End)
    ensures templated == Template(src, End, 0, |lits| == 1)
  {
    var single := |lits| == 1;
    templated := src;
    var i := |lits|;
    RemainingAfter(src, lits, i);
    ToNextLiteral(src[EndOf(lits, i)..], KindOf(lits, i), EndOf(lits, i), i, single, []);
    hide Template;
    while i > 0
      invariant 0 <= i <= |lits| && EndOf(lits, i) <= |src|
      invariant templated == SplicedFrom(src, lits, i, single)
    {
      SpliceOne(src, lits, i, single, templated);
      RemainingAfter(src, lits, i - 1);
      i := i - 1;
      var begin := lits[i].pos;
      templated := templated[..begin] + ":" + Name(single, i) + templated[begin + Width(lits[i].word)..];
    }
    assert src[0..] == src;
  }
}
