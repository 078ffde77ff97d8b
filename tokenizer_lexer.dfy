/** The second lexer (Compiler/Tokenizer.cs): the same scan-then-reclassify design
    with a sixteen-rule table that adds the bool keyword, punctuation and separate
    integer and floating-point literals. */
module TokenizerLexer {
  import opened Regex

  datatype TokenTypes =
    | INT | BOOL | FLOAT | IDENTIFIER | INTEGER | OPERATORS | ASSIGNMENT | LINEEND
    | LPARENTHESES | RPARENTHESES | COMMA | SEMICOLON | LCURLYBRACES | RCURLYBRACES
    | UNKNOWN | FLOATING_POINT | BOOL_LITERAL

  datatype Token = Token(kind: TokenTypes, value: string)

  /** The rule table, in the order its dictionary was filled (the order in which a
      freshly built dictionary without removals enumerates its entries). */
  const Keywords: seq<Rule<TokenTypes>> := [
    Rule(INT, WholeWord(["int"])),
    Rule(FLOAT, WholeWord(["float"])),
    Rule(BOOL, WholeWord(["bool"])),
    Rule(BOOL_LITERAL, WholeWord(["true", "false"])),
    Rule(LINEEND, AnyOf(";")),
    Rule(LPARENTHESES, AnyOf("(")),
    Rule(RPARENTHESES, AnyOf(")")),
    Rule(LCURLYBRACES, AnyOf("{")),
    Rule(RCURLYBRACES, AnyOf("}")),
    Rule(SEMICOLON, AnyOf(":")),
    Rule(COMMA, AnyOf(",")),
    Rule(IDENTIFIER, Name),
    Rule(ASSIGNMENT, AnyOf("=")),
    Rule(FLOATING_POINT, WholeDecimal),
    Rule(INTEGER, WholeDigits),
    Rule(OPERATORS, AnyOf("+-*/"))
  ]

  /** The kind of the first rule, in table order, whose pattern matches somewhere in
      the token's text, or UNKNOWN. */
  function GetTokenType(token: string): (kind: TokenTypes)
  {
    match FirstRule(Keywords, token)
    case Some(i) => Keywords[i].kind
    case None => UNKNOWN
  }

  /** GetTokenType gives UNKNOWN exactly when no pattern of the table matches anywhere
      in the text, and otherwise the kind of the first rule, in table order, that does. */
  lemma GetTokenTypeIsFirstMatch(token: string)
    ensures GetTokenType(token) == UNKNOWN <==>
      forall i | 0 <= i < |Keywords| :: !IsMatch(Keywords[i].pattern, token)
    ensures GetTokenType(token) != UNKNOWN ==>
      exists i | 0 <= i < |Keywords| ::
        Keywords[i].kind == GetTokenType(token) && IsMatch(Keywords[i].pattern, token) &&
        forall j | 0 <= j < i :: !IsMatch(Keywords[j].pattern, token)
  {
    FirstRuleIsFirst(Keywords, token);
    KindsAreKnown();
  }

  /** No rule of the table yields UNKNOWN. */
  lemma KindsAreKnown()
    ensures forall i | 0 <= i < |Keywords| :: Keywords[i].kind != UNKNOWN
  {
  }

  /** The rule at index i decides the kind when it is the first one that matches. */
  lemma ClassifiedBy(token: string, i: nat)
    requires i < |Keywords| && IsMatch(Keywords[i].pattern, token)
    requires forall j | 0 <= j < i :: !IsMatch(Keywords[j].pattern, token)
    ensures GetTokenType(token) == Keywords[i].kind
  {
    FirstRuleIs(Keywords, token, i);
  }

  /** The tokens one call of Tokenize appends: every match of the alternation, in
      order, paired with the kind GetTokenType gives its text. */
  function Scanned(source: string): (tokens: seq<Token>)
  {
    var lexemes := Lexemes(Alternation(Keywords), source);
    seq(|lexemes|, k requires 0 <= k < |lexemes| => Token(GetTokenType(lexemes[k]), lexemes[k]))
  }

  class Lexer {
    const sourceCode: string
    var tokens: seq<Token>

    constructor (sourceCode: string)
      ensures this.sourceCode == sourceCode && tokens == []
    {
      this.sourceCode := sourceCode;
      tokens := [];
    }

    /** Appends a token for every match in the source to the token list and returns
        the whole list. */
    method Tokenize() returns (r: seq<Token>)
      modifies this`tokens
      ensures tokens == old(tokens) + Scanned(sourceCode)
      ensures r == tokens
    {
      var matches := Lexemes(Alternation(Keywords), sourceCode);
      ghost var expected := Scanned(sourceCode);
      assert |expected| == |matches|;
      for i := 0 to |matches|
        invariant tokens == old(tokens) + expected[..i]
      {
        var tokenType := GetTokenType(matches[i]);
        assert expected[i] == Token(tokenType, matches[i]);
        tokens := tokens + [Token(tokenType, matches[i])];
        PrefixGrows(expected, i);
      }
      assert expected[..|matches|] == expected;
      r := tokens;
    }
  }

  /** A second Tokenize on the same lexer returns the first result followed by the
      same tokens again, because the list is a field that both calls append to. */
  method TokenizeTwice(source: string) returns (first: seq<Token>, second: seq<Token>)
    ensures first == Scanned(source)
    ensures second == first + first
  {
    var lexer := new Lexer(source);
    first := lexer.Tokenize();
    second := lexer.Tokenize();
  }

  /** No rule before the floating-point one can begin a match on a digit or a dot. */
  lemma DigitsAndDotStartNoEarlierRule(j: nat, c: char)
    requires j < 13 && (IsDigit(c) || c == '.')
    ensures !CanStart(Keywords[j].pattern, c)
  {
    if j < 4 {
      var ws := Keywords[j].pattern.alternatives;
      assert forall w | w in ws :: IsLetter(w[0]);
    }
  }

  /** Text made only of digits and dots matches none of the first thirteen rules. */
  lemma NoEarlierRuleMatches(x: string)
    requires forall i | 0 <= i < |x| :: IsDigit(x[i]) || x[i] == '.'
    ensures forall j | 0 <= j < 13 :: !IsMatch(Keywords[j].pattern, x)
  {
    forall j | 0 <= j < 13 ensures !IsMatch(Keywords[j].pattern, x) {
      forall q | 0 <= q < |x| ensures !CanStart(Keywords[j].pattern, x[q]) {
        DigitsAndDotStartNoEarlierRule(j, x[q]);
      }
      NoMatchWithoutStart(Keywords[j].pattern, x, 0);
    }
  }

  /** Digits, a dot and digits classify as FLOATING_POINT and not as INTEGER, because
      the floating-point rule comes first in the table. */
  lemma DecimalIsFloatingPoint(a: string, b: string)
    requires |a| > 0 && |b| > 0 && AllDigits(a) && AllDigits(b)
    ensures GetTokenType(a + "." + b) == FLOATING_POINT
  {
    var x := a + "." + b;
    assert forall i | 0 <= i < |a| :: x[i] == a[i];
    assert forall i | 0 <= i < |b| :: x[|a| + 1 + i] == b[i];
    assert x[|a|] == '.';
    NoEarlierRuleMatches(x);
    DigitRunStopsAt(x, 0, |a|);
    DigitRunStopsAt(x, |a| + 1, |x|);
    assert MatchAt(WholeDecimal, x, 0) == Some(|x|);
    ClassifiedBy(x, 13);
  }

  /** A run of digits classifies as INTEGER: no earlier rule, the floating-point one
      included, matches anywhere in it. */
  lemma DigitsAreInteger(a: string)
    requires |a| > 0 && AllDigits(a)
    ensures GetTokenType(a) == INTEGER
  {
    NoEarlierRuleMatches(a);
    forall q | 0 <= q < |a| ensures MatchAt(WholeDecimal, a, q).None? {
      DigitRunStopsAt(a, q, |a|);
    }
    assert !IsMatch(Keywords[13].pattern, a);
    assert MatchAt(WholeDigits, a, 0) == Some(|a|);
    ClassifiedBy(a, 14);
  }

  /** Text without the first letter of keyword rule j does not match it. */
  lemma KeywordRuleMiss(token: string, j: nat)
    requires j < 3
    requires forall q | 0 <= q < |token| :: token[q] != "ifb"[j]
    ensures !IsMatch(Keywords[j].pattern, token)
  {
    var ws := Keywords[j].pattern.alternatives;
    assert forall w | w in ws :: w[0] == "ifb"[j];
    NoMatchWithoutStart(Keywords[j].pattern, token, 0);
  }

  /** Text in which none of the first letters of the first n keywords occurs
      matches none of those keyword rules. */
  lemma KeywordRulesMiss(token: string, n: nat)
    requires n <= 3
    requires forall q | 0 <= q < |token| :: token[q] !in "ifb"[..n]
    ensures forall j | 0 <= j < n :: !IsMatch(Keywords[j].pattern, token)
  {
    forall j | 0 <= j < n ensures !IsMatch(Keywords[j].pattern, token) {
      KeywordRuleMiss(token, j);
    }
  }

  /** A standalone int is the INT keyword. */
  lemma IntIsInt()
    ensures GetTokenType("int") == INT
  {
    assert MatchAt(WholeWord(["int"]), "int", 0) == Some(3);
    ClassifiedBy("int", 0);
  }

  /** A standalone float is the FLOAT keyword. */
  lemma FloatIsFloat()
    ensures GetTokenType("float") == FLOAT
  {
    KeywordRulesMiss("float", 1);
    assert MatchAt(WholeWord(["float"]), "float", 0) == Some(5);
    ClassifiedBy("float", 1);
  }

  /** A standalone bool is the BOOL keyword, not an identifier. */
  lemma BoolIsBool()
    ensures GetTokenType("bool") == BOOL
  {
    KeywordRulesMiss("bool", 2);
    assert MatchAt(WholeWord(["bool"]), "bool", 0) == Some(4);
    ClassifiedBy("bool", 2);
  }

  /** true is a BOOL_LITERAL token. */
  lemma TrueIsBoolLiteral()
    ensures GetTokenType("true") == BOOL_LITERAL
  {
    KeywordRulesMiss("true", 3);
    assert MatchAt(WholeWord(["true", "false"]), "true", 0) == Some(4);
    ClassifiedBy("true", 3);
  }

  /** The float rule does not match in false: its only f is followed by a. */
  lemma FloatMissesFalse()
    ensures !IsMatch(WholeWord(["float"]), "false")
  {
    NoMatchWithoutStart(WholeWord(["float"]), "false", 1);
    assert MatchAt(WholeWord(["float"]), "false", 0).None?;
  }

  /** The rules before the BOOL_LITERAL one do not match in false. */
  lemma FalseMissesKeywordRules()
    ensures forall j | 0 <= j < 3 :: !IsMatch(Keywords[j].pattern, "false")
  {
    KeywordRuleMiss("false", 0);
    FloatMissesFalse();
    KeywordRuleMiss("false", 2);
  }

  /** false is a BOOL_LITERAL token. */
  lemma FalseIsBoolLiteral()
    ensures GetTokenType("false") == BOOL_LITERAL
  {
    FalseMissesKeywordRules();
    assert MatchAt(WholeWord(["true", "false"]), "false", 0) == Some(5);
    ClassifiedBy("false", 3);
  }

  /** Which rules can begin at a character: a digit only the two numeric rules, a
      letter other than i, f, b and t only the identifier rule, and any other
      character only a one-character rule that lists it. */
  lemma StartingRules(j: nat, c: char)
    requires j < |Keywords|
    ensures IsDigit(c) && j < 13 ==> !CanStart(Keywords[j].pattern, c)
    ensures IsLetter(c) && c !in "iftb" && j != 11 ==> !CanStart(Keywords[j].pattern, c)
    ensures IsWordChar(c) && Keywords[j].pattern.AnyOf? ==> !CanStart(Keywords[j].pattern, c)
    ensures !IsWordChar(c) && !(Keywords[j].pattern.AnyOf? && c in Keywords[j].pattern.chars) ==>
      !CanStart(Keywords[j].pattern, c)
  {
    if j < 4 {
      var ws := Keywords[j].pattern.alternatives;
      assert forall w | w in ws :: w[0] in "iftb";
    }
  }

  /** Each character of a one-character rule classifies, on its own, as that rule's
      kind: no earlier rule can begin with it. */
  lemma SymbolIsItsOwnKind(j: nat, c: char)
    requires j < |Keywords| && Keywords[j].pattern.AnyOf? && c in Keywords[j].pattern.chars
    ensures GetTokenType([c]) == Keywords[j].kind
  {
    var x := [c];
    forall i | 0 <= i < j ensures !IsMatch(Keywords[i].pattern, x) {
      StartingRules(i, c);
      NoMatchWithoutStart(Keywords[i].pattern, x, 0);
    }
    assert MatchAt(Keywords[j].pattern, x, 0) == Some(1);
    ClassifiedBy(x, j);
  }

  /** The one-character rules before the identifier rule list a single character,
      which classifies as the rule's kind. */
  lemma PunctuationIsItsOwnKind(j: nat)
    requires 4 <= j < 11
    ensures |Keywords[j].pattern.chars| == 1
    ensures GetTokenType(Keywords[j].pattern.chars) == Keywords[j].kind
  {
    var x := Keywords[j].pattern.chars;
    SymbolIsItsOwnKind(j, x[0]);
    assert [x[0]] == x;
  }

  /** ; is LINEEND and : is SEMICOLON; each bracket and the comma has its own kind. */
  lemma PunctuationKinds()
    ensures GetTokenType(";") == LINEEND && GetTokenType(":") == SEMICOLON
    ensures GetTokenType("(") == LPARENTHESES && GetTokenType(")") == RPARENTHESES
    ensures GetTokenType("{") == LCURLYBRACES && GetTokenType("}") == RCURLYBRACES
    ensures GetTokenType(",") == COMMA
  {
    PunctuationIsItsOwnKind(4);
    PunctuationIsItsOwnKind(5);
    PunctuationIsItsOwnKind(6);
    PunctuationIsItsOwnKind(7);
    PunctuationIsItsOwnKind(8);
    PunctuationIsItsOwnKind(9);
    PunctuationIsItsOwnKind(10);
  }

  /** = is ASSIGNMENT and each of + - * / is OPERATORS. */
  lemma AssignmentAndOperatorKinds()
    ensures GetTokenType("=") == ASSIGNMENT
    ensures forall c | c in "+-*/" :: GetTokenType([c]) == OPERATORS
  {
    SymbolIsItsOwnKind(12, '=');
    forall c | c in "+-*/" ensures GetTokenType([c]) == OPERATORS {
      SymbolIsItsOwnKind(15, c);
    }
  }

  /** Every character a pattern of the table can match is a word character, a dot or
      one of the one-character symbols of the table, never white space. */
  lemma TableAlphabet(j: nat, c: char)
    requires j < |Keywords| && InAlphabet(Keywords[j].pattern, c)
    ensures IsWordChar(c) || c in ".;(){}:,=+-*/"
    ensures c != ' ' && c != '\t' && c != '\n' && c != '\r'
    ensures c == '.' ==> j == 13
  {
    if j < 4 {
      var ws := Keywords[j].pattern.alternatives;
      var w :| w in ws && c in w;
      assert forall v | v in ws :: forall x | x in v :: IsLetter(x);
    }
  }

  /** Every lexeme consists of word characters, dots and the symbols of the table
      only: white space never appears in a token. */
  lemma LexemeCharacters(source: string, k: nat, i: nat)
    requires k < |Scanned(source)| && i < |Scanned(source)[k].value|
    ensures var c := Scanned(source)[k].value[i];
      IsWordChar(c) || c in ".;(){}:,=+-*/"
    ensures var c := Scanned(source)[k].value[i];
      c != ' ' && c != '\t' && c != '\n' && c != '\r'
  {
    var alts := Alternation(Keywords);
    var a := LexemeOrigin(alts, source, k);
    assert alts[a] == Keywords[a].pattern;
    assert Scanned(source)[k].value == Lexemes(alts, source)[k];
    TableAlphabet(a, Lexemes(alts, source)[k][i]);
  }

  /** A lexeme that contains a dot was produced by the floating-point alternative: it
      is two digit runs around one dot, and is classified FLOATING_POINT. A dot outside
      digits-dot-digits yields no token. */
  lemma DotOnlyInFloatingPoint(source: string, k: nat, i: nat) returns (a: string, b: string)
    requires k < |Scanned(source)| && i < |Scanned(source)[k].value|
    requires Scanned(source)[k].value[i] == '.'
    ensures |a| > 0 && |b| > 0 && AllDigits(a) && AllDigits(b)
    ensures Scanned(source)[k].value == a + "." + b
    ensures Scanned(source)[k].kind == FLOATING_POINT
  {
    var alts := Alternation(Keywords);
    var x := Lexemes(alts, source)[k];
    var origin := LexemeOrigin(alts, source, k);
    TableAlphabet(origin, x[i]);
    var sp := Scan(alts, source, 0)[k];
    a, b := WholeDecimalSplit(source, sp.start);
    DecimalIsFloatingPoint(a, b);
  }

  /** The alternation's match at p comes from rule a when rule a matches there and no
      earlier rule can begin with the character at p. */
  lemma ScannedBy(s: string, p: nat, a: nat, e: nat)
    requires p < |s| && a < |Keywords| && MatchAt(Keywords[a].pattern, s, p) == Some(e)
    requires forall j | 0 <= j < a :: !CanStart(Keywords[j].pattern, s[p])
    ensures FirstAlternative(Alternation(Keywords), s, p) == Some(Hit(a, e))
  {
    var alts := Alternation(Keywords);
    forall j | 0 <= j < a ensures MatchAt(alts[j], s, p).None? {
      NoMatchAtWithoutStart(alts[j], s, p);
    }
    FirstAlternativeIs(alts, s, p, a, e);
  }

  /** No token starts at a blank. */
  lemma BlankStartsNothing(s: string, p: nat)
    requires p < |s| && s[p] == ' '
    ensures FirstAlternative(Alternation(Keywords), s, p).None?
  {
    var alts := Alternation(Keywords);
    forall j | 0 <= j < |alts| ensures MatchAt(alts[j], s, p).None? {
      StartingRules(j, s[p]);
      NoMatchAtWithoutStart(alts[j], s, p);
    }
    NoAlternative(alts, s, p);
  }

  /** The sample statement the repository's driver tokenizes. */
  const SampleLine: string := "int result = (4.67*7);"

  lemma SampleInt()
    ensures FirstAlternative(Alternation(Keywords), SampleLine, 0) == Some(Hit(0, 3))
  {
    assert MatchAt(Keywords[0].pattern, SampleLine, 0) == Some(3);
    ScannedBy(SampleLine, 0, 0, 3);
  }

  lemma SampleResult()
    ensures FirstAlternative(Alternation(Keywords), SampleLine, 4) == Some(Hit(11, 10))
  {
    WordRunStopsAt(SampleLine, 5, 10);
    assert MatchAt(Keywords[11].pattern, SampleLine, 4) == Some(10);
    forall j | 0 <= j < 11 ensures !CanStart(Keywords[j].pattern, SampleLine[4]) {
      StartingRules(j, SampleLine[4]);
    }
    ScannedBy(SampleLine, 4, 11, 10);
  }

  lemma SampleSymbol(p: nat, a: nat)
    requires p < |SampleLine| && a < |Keywords| && Keywords[a].pattern.AnyOf?
    requires SampleLine[p] in Keywords[a].pattern.chars
    requires forall j | 0 <= j < a :: !(Keywords[j].pattern.AnyOf? && SampleLine[p] in Keywords[j].pattern.chars)
    requires !IsWordChar(SampleLine[p])
    ensures FirstAlternative(Alternation(Keywords), SampleLine, p) == Some(Hit(a, p + 1))
  {
    forall j | 0 <= j < a ensures !CanStart(Keywords[j].pattern, SampleLine[p]) {
      StartingRules(j, SampleLine[p]);
    }
    ScannedBy(SampleLine, p, a, p + 1);
  }

  lemma SampleDecimal()
    ensures FirstAlternative(Alternation(Keywords), SampleLine, 14) == Some(Hit(13, 18))
  {
    DigitRunStopsAt(SampleLine, 14, 15);
    DigitRunStopsAt(SampleLine, 16, 18);
    assert MatchAt(Keywords[13].pattern, SampleLine, 14) == Some(18);
    forall j | 0 <= j < 13 ensures !CanStart(Keywords[j].pattern, SampleLine[14]) {
      StartingRules(j, SampleLine[14]);
    }
    ScannedBy(SampleLine, 14, 13, 18);
  }

  lemma SampleDigits()
    ensures FirstAlternative(Alternation(Keywords), SampleLine, 19) == Some(Hit(14, 20))
  {
    var alts := Alternation(Keywords);
    DigitRunStopsAt(SampleLine, 19, 20);
    assert MatchAt(alts[13], SampleLine, 19).None?;
    assert MatchAt(alts[14], SampleLine, 19) == Some(20);
    forall j | 0 <= j < 13 ensures MatchAt(alts[j], SampleLine, 19).None? {
      StartingRules(j, SampleLine[19]);
      NoMatchAtWithoutStart(alts[j], SampleLine, 19);
    }
    FirstAlternativeIs(alts, SampleLine, 19, 14, 20);
  }

  /** The matches of the sample statement: everything but the three blanks. */
  const SampleMatches: seq<Span> :=
    [Span(0, 3), Span(4, 10), Span(11, 12), Span(13, 14), Span(14, 18), Span(18, 19),
     Span(19, 20), Span(20, 21), Span(21, 22)]

  lemma SampleMatchAt(k: nat)
    requires k < |SampleMatches|
    ensures var h := FirstAlternative(Alternation(Keywords), SampleLine, SampleMatches[k].start);
      h.Some? && h.value.end == SampleMatches[k].end
  {
    var sp := SampleMatches[k];
    if k == 0 { assert sp == Span(0, 3); SampleInt(); }
    else if k == 1 { assert sp == Span(4, 10); SampleResult(); }
    else if k == 2 { assert sp == Span(11, 12); SampleSymbol(11, 12); }
    else if k == 3 { assert sp == Span(13, 14); SampleSymbol(13, 5); }
    else if k == 4 { assert sp == Span(14, 18); SampleDecimal(); }
    else if k == 5 { assert sp == Span(18, 19); SampleSymbol(18, 15); }
    else if k == 6 { assert sp == Span(19, 20); SampleDigits(); }
    else if k == 7 { assert sp == Span(20, 21); SampleSymbol(20, 6); }
    else { assert sp == Span(21, 22); SampleSymbol(21, 4); }
  }

  lemma SampleMatchedAtStarts()
    ensures MatchedAtStarts(Alternation(Keywords), SampleLine, 0, SampleMatches)
  {
    forall k | 0 <= k < |SampleMatches|
      ensures var h := FirstAlternative(Alternation(Keywords), SampleLine, SampleMatches[k].start);
        h.Some? && h.value.end == SampleMatches[k].end
    {
      SampleMatchAt(k);
    }
  }

  lemma SampleOrdered()
    ensures Ordered(SampleMatches)
  {
  }

  /** Every position of the sample statement but the three blanks lies in a match. */
  lemma SampleCovered(q: nat)
    requires q < |SampleLine| && q != 3 && q != 10 && q != 12
    ensures !Uncovered(SampleMatches, q)
  {
    var k := if q < 3 then 0 else if q < 10 then 1 else if q < 12 then 2
      else if q < 14 then 3 else if q < 18 then 4 else q - 13;
    assert SampleMatches[k].start <= q < SampleMatches[k].end;
  }

  lemma SampleGapsUnmatched()
    ensures GapsUnmatched(Alternation(Keywords), SampleLine, 0, SampleMatches)
  {
    forall q | 0 <= q < |SampleLine| && q != 3 && q != 10 && q != 12 ensures !Uncovered(SampleMatches, q) {
      SampleCovered(q);
    }
    forall q | 0 <= q < |SampleLine| && Uncovered(SampleMatches, q)
      ensures FirstAlternative(Alternation(Keywords), SampleLine, q).None?
    {
      BlankStartsNothing(SampleLine, q);
    }
  }

  /** Tokenize's scan of the sample statement finds every token but the blanks. */
  lemma SampleSpans()
    ensures Scan(Alternation(Keywords), SampleLine, 0) == SampleMatches
  {
    SampleMatchedAtStarts();
    SampleOrdered();
    SampleGapsUnmatched();
    LeftmostFirstIsUnique(Alternation(Keywords), SampleLine, 0, SampleMatches);
  }

  /** Text made of word characters matches none of the punctuation rules. */
  lemma WordMissesPunctuation(token: string)
    requires forall q | 0 <= q < |token| :: IsWordChar(token[q])
    ensures forall j | 4 <= j < 11 :: !IsMatch(Keywords[j].pattern, token)
  {
    forall j | 4 <= j < 11 ensures !IsMatch(Keywords[j].pattern, token) {
      forall q | 0 <= q < |token| ensures !CanStart(Keywords[j].pattern, token[q]) {
        StartingRules(j, token[q]);
      }
      NoMatchWithoutStart(Keywords[j].pattern, token, 0);
    }
  }

  /** In a text of word characters, each of the four keyword rules matches exactly
      when the text is one of its words. */
  lemma KeywordRulesOnWord(token: string)
    requires forall q | 0 <= q < |token| :: IsWordChar(token[q])
    ensures forall j | 0 <= j < 4 ::
      IsMatch(Keywords[j].pattern, token) <==> token in Keywords[j].pattern.alternatives
  {
    forall j | 0 <= j < 4
      ensures IsMatch(Keywords[j].pattern, token) <==> token in Keywords[j].pattern.alternatives
    {
      WholeWordInWord(Keywords[j].pattern.alternatives, token);
    }
  }

  /** A word that begins like a name is an IDENTIFIER exactly when it is none of the
      words of the four keyword rules: inside such a word \b holds only at its two
      edges, so a keyword rule matches in it only when it is the whole word, and no
      character of it can begin one of the punctuation rules before IDENTIFIER. */
  lemma NameIsIdentifier(token: string)
    requires |token| > 0 && (IsLetter(token[0]) || token[0] == '_')
    requires forall q | 0 <= q < |token| :: IsWordChar(token[q])
    ensures GetTokenType(token) == IDENTIFIER <==>
      token !in {"int", "float", "bool", "true", "false"}
  {
    if token in {"int", "float", "bool", "true", "false"} {
      if token == "int" { IntIsInt(); }
      else if token == "float" { FloatIsFloat(); }
      else if token == "bool" { BoolIsBool(); }
      else if token == "true" { TrueIsBoolLiteral(); }
      else { FalseIsBoolLiteral(); }
    } else {
      KeywordRulesOnWord(token);
      WordMissesPunctuation(token);
      WordRunStopsAt(token, 1, |token|);
      assert MatchAt(Keywords[11].pattern, token, 0).Some?;
      ClassifiedBy(token, 11);
    }
  }

  /** A name that is no keyword, such as result, is an IDENTIFIER, although it
      contains the t that begins true. */
  lemma ResultIsIdentifier()
    ensures GetTokenType("result") == IDENTIFIER
  {
    NameIsIdentifier("result");
  }

  /** The texts of the matches of the sample statement. */
  const SampleWords: seq<string> := ["int", "result", "=", "(", "4.67", "*", "7", ")", ";"]

  lemma SampleSlice(k: nat)
    requires k < |SampleMatches|
    ensures SampleLine[SampleMatches[k].start..SampleMatches[k].end] == SampleWords[k]
  {
    var sp := SampleMatches[k];
    var w := SampleLine[sp.start..sp.end];
    assert |w| == |SampleWords[k]|;
    forall i | 0 <= i < |w| ensures w[i] == SampleWords[k][i] {
      assert w[i] == SampleLine[sp.start + i];
    }
  }

  lemma SampleLexemes()
    ensures Lexemes(Alternation(Keywords), SampleLine) == SampleWords
  {
    var r := Lexemes(Alternation(Keywords), SampleLine);
    SampleSpans();
    forall k | 0 <= k < |SampleWords| ensures r[k] == SampleWords[k] {
      SampleSlice(k);
    }
  }

  /** The kinds of the sample statement's tokens. */
  const SampleKinds: seq<TokenTypes> :=
    [INT, IDENTIFIER, ASSIGNMENT, LPARENTHESES, FLOATING_POINT, OPERATORS, INTEGER,
     RPARENTHESES, LINEEND]

  lemma SampleClassified(k: nat)
    requires k < |SampleWords|
    ensures GetTokenType(SampleWords[k]) == SampleKinds[k]
  {
    if k == 0 { SampleClassified0(); }
    else if k == 1 { SampleClassified1(); }
    else if k == 2 { SampleClassified2(); }
    else if k == 3 { SampleClassified3(); }
    else if k == 4 { SampleClassified4(); }
    else if k == 5 { SampleClassified5(); }
    else if k == 6 { SampleClassified6(); }
    else if k == 7 { SampleClassified7(); }
    else { SampleClassified8(); }
  }

  /* One lemma per lexeme: each classifies a single literal, which keeps every proof small. */
  lemma SampleClassified0()
    ensures GetTokenType(SampleWords[0]) == SampleKinds[0]
  {
    IntIsInt();
  }

  lemma SampleClassified1()
    ensures GetTokenType(SampleWords[1]) == SampleKinds[1]
  {
    ResultIsIdentifier();
  }

  lemma SampleClassified2()
    ensures GetTokenType(SampleWords[2]) == SampleKinds[2]
  {
    SampleSymbolKind('=', ASSIGNMENT);
  }

  lemma SampleClassified3()
    ensures GetTokenType(SampleWords[3]) == SampleKinds[3]
  {
    SampleSymbolKind('(', LPARENTHESES);
  }

  lemma SampleClassified4()
    ensures GetTokenType(SampleWords[4]) == SampleKinds[4]
  {
    SampleDecimalIsFloatingPoint();
  }

  lemma SampleClassified5()
    ensures GetTokenType(SampleWords[5]) == SampleKinds[5]
  {
    SampleSymbolKind('*', OPERATORS);
  }

  lemma SampleClassified6()
    ensures GetTokenType(SampleWords[6]) == SampleKinds[6]
  {
    DigitsAreInteger("7");
  }

  lemma SampleClassified7()
    ensures GetTokenType(SampleWords[7]) == SampleKinds[7]
  {
    SampleSymbolKind(')', RPARENTHESES);
  }

  lemma SampleClassified8()
    ensures GetTokenType(SampleWords[8]) == SampleKinds[8]
  {
    SampleSymbolKind(';', LINEEND);
  }

  /** The one-character lexemes of the sample line take the kinds of their rules. */
  lemma SampleSymbolKind(c: char, kind: TokenTypes)
    requires (c, kind) in [('=', ASSIGNMENT), ('(', LPARENTHESES), ('*', OPERATORS),
                           (')', RPARENTHESES), (';', LINEEND)]
    ensures GetTokenType([c]) == kind
  {
    if c == '=' { SymbolIsItsOwnKind(12, '='); }
    else if c == '(' { PunctuationIsItsOwnKind(5); }
    else if c == '*' { SymbolIsItsOwnKind(15, '*'); }
    else if c == ')' { PunctuationIsItsOwnKind(6); }
    else { PunctuationIsItsOwnKind(4); }
  }

  lemma SampleDecimalIsFloatingPoint()
    ensures GetTokenType("4.67") == FLOATING_POINT
  {
    var a, b := "4", "67";
    assert AllDigits(a) && AllDigits(b);
    assert a + "." + b == "4.67";
    DecimalIsFloatingPoint(a, b);
  }

  lemma SampleTokensAt(k: nat)
    requires k < |SampleWords|
    ensures |Scanned(SampleLine)| == |SampleWords|
    ensures Scanned(SampleLine)[k] == Token(SampleKinds[k], SampleWords[k])
  {
    SampleLexemes();
    SampleClassified(k);
  }

  /** The driver's sample statement tokenizes to INT, IDENTIFIER, ASSIGNMENT,
      LPARENTHESES, FLOATING_POINT, OPERATORS, INTEGER, RPARENTHESES and LINEEND. */
  lemma SampleTokens()
    ensures Scanned(SampleLine) ==
      [Token(INT, "int"), Token(IDENTIFIER, "result"), Token(ASSIGNMENT, "="),
       Token(LPARENTHESES, "("), Token(FLOATING_POINT, "4.67"), Token(OPERATORS, "*"),
       Token(INTEGER, "7"), Token(RPARENTHESES, ")"), Token(LINEEND, ";")]
  {
    var r := Scanned(SampleLine);
    SampleTokensAt(0);
    forall k | 0 <= k < |r| ensures r[k] == Token(SampleKinds[k], SampleWords[k]) {
      SampleTokensAt(k);
    }
    SampleTokenList(r);
  }

  lemma SampleTokenList(r: seq<Token>)
    requires |r| == |SampleWords|
    requires forall k | 0 <= k < |r| :: r[k] == Token(SampleKinds[k], SampleWords[k])
    ensures r ==
      [Token(INT, "int"), Token(IDENTIFIER, "result"), Token(ASSIGNMENT, "="),
       Token(LPARENTHESES, "("), Token(FLOATING_POINT, "4.67"), Token(OPERATORS, "*"),
       Token(INTEGER, "7"), Token(RPARENTHESES, ")"), Token(LINEEND, ";")]
  {
  }

  /** In 1int no rule matches at the digit: the integer and floating-point rules need a
      word boundary after their digits. At the i, which has no word boundary before
      it, only the IDENTIFIER rule matches. */
  lemma GluedMatches()
    ensures FirstAlternative(Alternation(Keywords), "1int", 0).None?
    ensures FirstAlternative(Alternation(Keywords), "1int", 1) == Some(Hit(11, 4))
  {
    var s := "1int";
    var alts := Alternation(Keywords);
    DigitRunStopsAt(s, 0, 1);
    assert !IsBoundary(s, 1);
    forall j | 0 <= j < |alts| ensures MatchAt(alts[j], s, 0).None? {
      if j < 13 {
        StartingRules(j, '1');
        NoMatchAtWithoutStart(alts[j], s, 0);
      }
    }
    NoAlternative(alts, s, 0);
    forall j | 0 <= j < 11 ensures MatchAt(alts[j], s, 1).None? {
      if j >= 4 {
        StartingRules(j, 'i');
        NoMatchAtWithoutStart(alts[j], s, 1);
      }
    }
    WordRunStopsAt(s, 2, 4);
    assert MatchAt(alts[11], s, 1) == Some(4);
    FirstAlternativeIs(alts, s, 1, 11, 4);
  }

  lemma GluedSpans()
    ensures Scan(Alternation(Keywords), "1int", 0) == [Span(1, 4)]
  {
    var spans := [Span(1, 4)];
    GluedMatches();
    assert MatchedAtStarts(Alternation(Keywords), "1int", 0, spans);
    forall q | 1 <= q < 4 ensures !Uncovered(spans, q) {
      assert spans[0].start <= q < spans[0].end;
    }
    LeftmostFirstIsUnique(Alternation(Keywords), "1int", 0, spans);
  }

  /** 1int lexes to the single token int, of kind INT: the digit yields no token, and
      int, found by the scan as a name, is classified as the keyword once it stands
      alone. */
  lemma GluedTokens()
    ensures Scanned("1int") == [Token(INT, "int")]
  {
    var lexemes := Lexemes(Alternation(Keywords), "1int");
    GluedSpans();
    assert "1int"[1..4] == "int";
    assert lexemes == ["int"];
    IntIsInt();
  }
}
