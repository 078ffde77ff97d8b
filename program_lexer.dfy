/** The first lexer (Compiler/Program.cs): an eight-rule table, a scan with the
    alternation of all its patterns, and a reclassification of every match by the
    first rule whose pattern occurs anywhere in the matched text. */
module ProgramLexer {
  import opened Regex

  datatype TokenTypes =
    | INTEGER | BOOL | FLOAT | IDENTIFIER | NUMBER | OPERATORS | ASSIGNMENT | SEMICOLON
    | UNKNOWN | CONSOLE

  datatype Token = Token(kind: TokenTypes, value: string)

  /** The rule table, in the order its dictionary was filled (the order in which a
      freshly built dictionary without removals enumerates its entries). */
  const Keywords: seq<Rule<TokenTypes>> := [
    Rule(INTEGER, WholeWord(["int"])),
    Rule(FLOAT, WholeWord(["float"])),
    Rule(BOOL, WholeWord(["true", "false"])),
    Rule(CONSOLE, WholeWord(["console"])),
    Rule(IDENTIFIER, Name),
    Rule(ASSIGNMENT, AnyOf("=")),
    Rule(NUMBER, Numeral),
    Rule(OPERATORS, AnyOf("+-*/"))
  ]

  /** The kind of the first rule, in table order, whose pattern matches somewhere in
      the token's text, or UNKNOWN. */
  function GetTokenType(token: string): (kind: TokenTypes)
  {
    match FirstRule(Keywords, token)
    case Some(i) => Keywords[i].kind
    case None => UNKNOWN
  }

  /** GetTokenType gives UNKNOWN exactly when no pattern of the table matches anywhere
      in the text, and otherwise the kind of the first rule, in table order, that does. */
  lemma GetTokenTypeIsFirstMatch(token: string)
    ensures GetTokenType(token) == UNKNOWN <==>
      forall i | 0 <= i < |Keywords| :: !IsMatch(Keywords[i].pattern, token)
    ensures GetTokenType(token) != UNKNOWN ==>
      exists i | 0 <= i < |Keywords| ::
        Keywords[i].kind == GetTokenType(token) && IsMatch(Keywords[i].pattern, token) &&
        forall j | 0 <= j < i :: !IsMatch(Keywords[j].pattern, token)
  {
    FirstRuleIsFirst(Keywords, token);
    KindsAreKnown();
  }

  /** No rule of the table yields UNKNOWN. */
  lemma KindsAreKnown()
    ensures forall i | 0 <= i < |Keywords| :: Keywords[i].kind != UNKNOWN
  {
  }

  /** The tokens one call of Tokenize appends: every match of the alternation, in
      order, paired with the kind GetTokenType gives its text. */
  function Scanned(source: string): (tokens: seq<Token>)
  {
    var lexemes := Lexemes(Alternation(Keywords), source);
    seq(|lexemes|, k requires 0 <= k < |lexemes| => Token(GetTokenType(lexemes[k]), lexemes[k]))
  }

  class Lexer {
    const sourceCode: string
    var tokens: seq<Token>

    constructor (sourceCode: string)
      ensures this.sourceCode == sourceCode && tokens == []
    {
      this.sourceCode := sourceCode;
      tokens := [];
    }

    /** Appends a token for every match in the source to the token list and returns
        the whole list. */
    method Tokenize() returns (r: seq<Token>)
      modifies this`tokens
      ensures tokens == old(tokens) + Scanned(sourceCode)
      ensures r == tokens
    {
      var matches := Lexemes(Alternation(Keywords), sourceCode);
      ghost var expected := Scanned(sourceCode);
      for i := 0 to |matches|
        invariant tokens == old(tokens) + expected[..i]
      {
        var tokenType := GetTokenType(matches[i]);
        assert expected[i] == Token(tokenType, matches[i]);
        tokens := tokens + [Token(tokenType, matches[i])];
        PrefixGrows(expected, i);
      }
      assert expected[..|matches|] == expected;
      r := tokens;
    }
  }

  /** A second Tokenize on the same lexer returns the first result followed by the
      same tokens again, because the list is a field that both calls append to. */
  method TokenizeTwice(source: string) returns (first: seq<Token>, second: seq<Token>)
    ensures first == Scanned(source)
    ensures second == first + first
  {
    var lexer := new Lexer(source);
    first := lexer.Tokenize();
    second := lexer.Tokenize();
  }

  /** Every character a pattern of the table can match is a word character, '=',
      '.' or an operator character, never a separator or white space. */
  lemma TableAlphabet(j: nat, c: char)
    requires j < |Keywords| && InAlphabet(Keywords[j].pattern, c)
    ensures IsWordChar(c) || c in "=.+-*/"
    ensures c != ';' && c != '(' && c != ')' && c != ' ' && c != '\t' && c != '\n' && c != '\r'
  {
    if j < 4 {
      var ws := Keywords[j].pattern.alternatives;
      var w :| w in ws && c in w;
      assert forall v | v in ws :: forall x | x in v :: IsLetter(x);
    }
  }

  /** Every lexeme consists of word characters, '=', '.' and the four operator
      characters only, so ';', '(' and ')' and white space never appear in a token. */
  lemma LexemeCharacters(source: string, k: nat, i: nat)
    requires k < |Scanned(source)| && i < |Scanned(source)[k].value|
    ensures var c := Scanned(source)[k].value[i];
      IsWordChar(c) || c in "=.+-*/"
    ensures var c := Scanned(source)[k].value[i];
      c != ';' && c != '(' && c != ')' && c != ' ' && c != '\t' && c != '\n' && c != '\r'
  {
    var alts := Alternation(Keywords);
    var a := LexemeOrigin(alts, source, k);
    assert alts[a] == Keywords[a].pattern;
    assert Scanned(source)[k].value == Lexemes(alts, source)[k];
    TableAlphabet(a, Lexemes(alts, source)[k][i]);
  }

  /** The rule at index i decides the kind when it is the first one that matches. */
  lemma ClassifiedBy(token: string, i: nat)
    requires i < |Keywords| && IsMatch(Keywords[i].pattern, token)
    requires forall j | 0 <= j < i :: !IsMatch(Keywords[j].pattern, token)
    ensures GetTokenType(token) == Keywords[i].kind
  {
    FirstRuleIs(Keywords, token, i);
  }

  /** A standalone int is the INTEGER keyword. */
  lemma IntIsInteger()
    ensures GetTokenType("int") == INTEGER
  {
    assert MatchAt(WholeWord(["int"]), "int", 0) == Some(3);
    ClassifiedBy("int", 0);
  }

  lemma TrueMissesEarlierRules()
    ensures forall j | 0 <= j < 2 :: !IsMatch(Keywords[j].pattern, "true")
  {
    NoMatchWithoutStart(WholeWord(["int"]), "true", 0);
    NoMatchWithoutStart(WholeWord(["float"]), "true", 0);
  }

  /** true is a BOOL token: this table has literals under BOOL. */
  lemma TrueIsBool()
    ensures GetTokenType("true") == BOOL
  {
    TrueMissesEarlierRules();
    assert MatchAt(WholeWord(["true", "false"]), "true", 0) == Some(4);
    ClassifiedBy("true", 2);
  }

  lemma FalseMissesEarlierRules()
    ensures forall j | 0 <= j < 2 :: !IsMatch(Keywords[j].pattern, "false")
  {
    NoMatchWithoutStart(WholeWord(["int"]), "false", 0);
    NoMatchWithoutStart(WholeWord(["float"]), "false", 1);
    assert MatchAt(WholeWord(["float"]), "false", 0).None?;
  }

  /** false is a BOOL token. */
  lemma FalseIsBool()
    ensures GetTokenType("false") == BOOL
  {
    FalseMissesEarlierRules();
    assert MatchAt(WholeWord(["true", "false"]), "false", 0) == Some(5);
    ClassifiedBy("false", 2);
  }

  /** A standalone float is the FLOAT keyword. */
  lemma FloatIsFloat()
    ensures GetTokenType("float") == FLOAT
  {
    NoMatchWithoutStart(WholeWord(["int"]), "float", 0);
    assert MatchAt(WholeWord(["float"]), "float", 0) == Some(5);
    ClassifiedBy("float", 1);
  }

  /** A standalone console is the CONSOLE keyword. */
  lemma ConsoleIsConsole()
    ensures GetTokenType("console") == CONSOLE
  {
    KeywordRulesOnWord("console");
    ClassifiedBy("console", 3);
  }

  /** Text without the letters that begin the keywords matches none of the four
      keyword rules. */
  lemma KeywordRulesMiss(token: string)
    requires forall q | 0 <= q < |token| :: token[q] !in "iftc"
    ensures forall j | 0 <= j < 4 :: !IsMatch(Keywords[j].pattern, token)
  {
    forall j | 0 <= j < 4 ensures !IsMatch(Keywords[j].pattern, token) {
      var ws := Keywords[j].pattern.alternatives;
      assert forall w | w in ws :: w[0] in "iftc";
      NoMatchWithoutStart(Keywords[j].pattern, token, 0);
    }
  }

  /** bool is an IDENTIFIER: this table has no bool keyword. */
  lemma BoolIsIdentifier()
    ensures GetTokenType("bool") == IDENTIFIER
  {
    KeywordRulesMiss("bool");
    assert MatchAt(Name, "bool", 0).Some?;
    ClassifiedBy("bool", 4);
  }

  lemma NumeralMissesEarlierRules(x: string)
    requires forall i | 0 <= i < |x| :: IsDigit(x[i]) || x[i] == '.'
    ensures forall j | 0 <= j < 6 :: !IsMatch(Keywords[j].pattern, x)
  {
    forall j | 0 <= j < 6 ensures !IsMatch(Keywords[j].pattern, x) {
      NoMatchWithoutStart(Keywords[j].pattern, x, 0);
    }
  }

  /** A single digit is a NUMBER. */
  lemma DigitIsNumber(d: char)
    requires IsDigit(d)
    ensures GetTokenType([d]) == NUMBER
  {
    NumeralMissesEarlierRules([d]);
    assert MatchAt(Numeral, [d], 0).Some?;
    ClassifiedBy([d], 6);
  }

  /** NUMBER covers both an integer and a decimal numeral. */
  lemma NumbersAreNumber()
    ensures GetTokenType("1") == NUMBER
    ensures GetTokenType("4.67") == NUMBER
  {
    DigitIsNumber('1');
    NumeralMissesEarlierRules("4.67");
    assert MatchAt(Numeral, "4.67", 0).Some?;
    ClassifiedBy("4.67", 6);
  }

  /** Which rules a character can begin: a digit only the numeral, a letter other
      than the keywords' first letters only the name, and any other character only a
      one-character rule that lists it. */
  lemma StartingRules(j: nat, c: char)
    requires j < |Keywords|
    ensures IsDigit(c) && j != 6 ==> !CanStart(Keywords[j].pattern, c)
    ensures IsLetter(c) && c !in "iftc" && j != 4 ==> !CanStart(Keywords[j].pattern, c)
    ensures !IsWordChar(c) && !(Keywords[j].pattern.AnyOf? && c in Keywords[j].pattern.chars) ==>
      !CanStart(Keywords[j].pattern, c)
  {
    if j < 4 {
      var ws := Keywords[j].pattern.alternatives;
      assert forall w | w in ws :: w[0] in "iftc";
    }
  }

  /** The alternation's match at p comes from rule a when rule a matches there and no
      earlier rule can begin with the character at p. */
  lemma ScannedBy(s: string, p: nat, a: nat, e: nat)
    requires p < |s| && a < |Keywords| && MatchAt(Keywords[a].pattern, s, p) == Some(e)
    requires forall j | 0 <= j < a :: !CanStart(Keywords[j].pattern, s[p])
    ensures FirstAlternative(Alternation(Keywords), s, p) == Some(Hit(a, e))
  {
    var alts := Alternation(Keywords);
    forall j | 0 <= j < a ensures MatchAt(alts[j], s, p).None? {
      NoMatchAtWithoutStart(alts[j], s, p);
    }
    FirstAlternativeIs(alts, s, p, a, e);
  }

  /** No token starts at a blank, a line break or a semicolon: this table has no rule
      for ';'. */
  lemma SeparatorStartsNothing(s: string, p: nat)
    requires p < |s| && (s[p] == ' ' || s[p] == '\n' || s[p] == ';')
    ensures FirstAlternative(Alternation(Keywords), s, p).None?
  {
    var alts := Alternation(Keywords);
    forall j | 0 <= j < |alts| ensures MatchAt(alts[j], s, p).None? {
      StartingRules(j, s[p]);
      NoMatchAtWithoutStart(alts[j], s, p);
    }
    NoAlternative(alts, s, p);
  }

  /** The source text the repository's driver lexes and parses: a verbatim string
      literal that opens with a line break and twelve blanks and closes with a line
      break and eight blanks. It is written here in four pieces, which keeps the
      position-by-position reasoning about it short. */
  const MainSource: string := "\n            " + "int num1 = 1;" + "int num2 = 2" + "\n        "

  /** A standalone int, with no word character on either side, is the INTEGER rule's
      match. */
  lemma IntAt(s: string, p: nat)
    requires p + 3 <= |s| && s[p] == 'i' && s[p + 1] == 'n' && s[p + 2] == 't'
    requires !WordAt(s, p - 1) && !WordAt(s, p + 3)
    ensures FirstAlternative(Alternation(Keywords), s, p) == Some(Hit(0, p + 3))
  {
    assert s[p..][..3] == "int";
    assert MatchAt(Keywords[0].pattern, s, p) == Some(p + 3);
    ScannedBy(s, p, 0, p + 3);
  }

  /** A word run that starts with a letter other than i, f, t and c is the IDENTIFIER
      rule's match, up to its last word character. */
  lemma NameAt(s: string, p: nat, e: nat)
    requires p < e <= |s| && IsLetter(s[p]) && s[p] !in "iftc"
    requires forall k | p < k < e :: IsWordChar(s[k])
    requires !WordAt(s, e)
    ensures FirstAlternative(Alternation(Keywords), s, p) == Some(Hit(4, e))
  {
    WordRunStopsAt(s, p + 1, e);
    forall j | 0 <= j < 4 ensures !CanStart(Keywords[j].pattern, s[p]) {
      StartingRules(j, s[p]);
    }
    ScannedBy(s, p, 4, e);
  }

  /** An = is the ASSIGNMENT rule's match. */
  lemma AssignAt(s: string, p: nat)
    requires p < |s| && s[p] == '='
    ensures FirstAlternative(Alternation(Keywords), s, p) == Some(Hit(5, p + 1))
  {
    forall j | 0 <= j < 5 ensures !CanStart(Keywords[j].pattern, s[p]) {
      StartingRules(j, s[p]);
    }
    ScannedBy(s, p, 5, p + 1);
  }

  /** A single digit followed by neither a digit nor a dot is the NUMBER rule's match. */
  lemma DigitAt(s: string, p: nat)
    requires p < |s| && IsDigit(s[p])
    requires p + 1 == |s| || (!IsDigit(s[p + 1]) && s[p + 1] != '.')
    ensures FirstAlternative(Alternation(Keywords), s, p) == Some(Hit(6, p + 1))
  {
    DigitRunStopsAt(s, p, p + 1);
    assert MatchAt(Keywords[6].pattern, s, p) == Some(p + 1);
    forall j | 0 <= j < 6 ensures !CanStart(Keywords[j].pattern, s[p]) {
      StartingRules(j, s[p]);
    }
    ScannedBy(s, p, 6, p + 1);
  }

  /** The matches of the driver's source: everything but the blanks, the line breaks and the ';'. */
  const MainMatches: seq<Span> :=
    [Span(13, 16), Span(17, 21), Span(22, 23), Span(24, 25), Span(26, 29), Span(30, 34),
     Span(35, 36), Span(37, 38)]

  /** The two int keywords of the driver's source. */
  lemma MainKeywords()
    ensures FirstAlternative(Alternation(Keywords), MainSource, 13) == Some(Hit(0, 16))
    ensures FirstAlternative(Alternation(Keywords), MainSource, 26) == Some(Hit(0, 29))
  {
    IntAt(MainSource, 13);
    IntAt(MainSource, 26);
  }

  /** The two variable names of the driver's source, num1 and num2. */
  lemma MainNames()
    ensures FirstAlternative(Alternation(Keywords), MainSource, 17) == Some(Hit(4, 21))
    ensures FirstAlternative(Alternation(Keywords), MainSource, 30) == Some(Hit(4, 34))
  {
    NameAt(MainSource, 17, 21);
    NameAt(MainSource, 30, 34);
  }

  /** The two = signs and the two numbers of the driver's source. */
  lemma MainValues()
    ensures FirstAlternative(Alternation(Keywords), MainSource, 22) == Some(Hit(5, 23))
    ensures FirstAlternative(Alternation(Keywords), MainSource, 35) == Some(Hit(5, 36))
    ensures FirstAlternative(Alternation(Keywords), MainSource, 24) == Some(Hit(6, 25))
    ensures FirstAlternative(Alternation(Keywords), MainSource, 37) == Some(Hit(6, 38))
  {
    AssignAt(MainSource, 22);
    AssignAt(MainSource, 35);
    DigitAt(MainSource, 24);
    DigitAt(MainSource, 37);
  }

  lemma MainMatchAt(k: nat)
    requires k < |MainMatches|
    ensures var h := FirstAlternative(Alternation(Keywords), MainSource, MainMatches[k].start);
      h.Some? && h.value.end == MainMatches[k].end
  {
    if k == 0 || k == 4 { MainKeywords(); }
    else if k == 1 || k == 5 { MainNames(); }
    else { MainValues(); }
  }

  lemma MainMatchedAtStarts()
    ensures MatchedAtStarts(Alternation(Keywords), MainSource, 0, MainMatches)
  {
    forall k | 0 <= k < |MainMatches|
      ensures var h := FirstAlternative(Alternation(Keywords), MainSource, MainMatches[k].start);
        h.Some? && h.value.end == MainMatches[k].end
    {
      MainMatchAt(k);
    }
  }

  lemma MainOrdered()
    ensures Ordered(MainMatches)
  {
  }

  /** Every position of the driver's source but the separators lies in a match. */
  lemma MainCovered(q: nat)
    requires q < |MainSource| && MainSource[q] != ' ' && MainSource[q] != '\n' && MainSource[q] != ';'
    ensures !Uncovered(MainMatches, q)
  {
    var k := if q < 16 then 0 else if q < 21 then 1 else if q < 23 then 2 else if q < 25 then 3
      else if q < 29 then 4 else if q < 34 then 5 else if q < 36 then 6 else 7;
    assert MainMatches[k].start <= q < MainMatches[k].end;
  }

  lemma MainGapsUnmatched()
    ensures GapsUnmatched(Alternation(Keywords), MainSource, 0, MainMatches)
  {
    forall q | 0 <= q < |MainSource| && Uncovered(MainMatches, q)
      ensures FirstAlternative(Alternation(Keywords), MainSource, q).None?
    {
      if MainSource[q] != ' ' && MainSource[q] != '\n' && MainSource[q] != ';' {
        MainCovered(q);
      }
      SeparatorStartsNothing(MainSource, q);
    }
  }

  /** The scan of the driver's source finds every word, '=' and number, and skips the ';'. */
  lemma MainSpans()
    ensures Scan(Alternation(Keywords), MainSource, 0) == MainMatches
  {
    MainMatchedAtStarts();
    MainOrdered();
    MainGapsUnmatched();
    LeftmostFirstIsUnique(Alternation(Keywords), MainSource, 0, MainMatches);
  }

  /** The texts of the matches of the driver's source. */
  const MainWords: seq<string> := ["int", "num1", "=", "1", "int", "num2", "=", "2"]

  lemma MainSlice(k: nat)
    requires k < |MainMatches|
    ensures MainSource[MainMatches[k].start..MainMatches[k].end] == MainWords[k]
  {
    var sp := MainMatches[k];
    var w := MainSource[sp.start..sp.end];
    assert |w| == |MainWords[k]|;
    forall i | 0 <= i < |w| ensures w[i] == MainWords[k][i] {
      assert w[i] == MainSource[sp.start + i];
    }
  }

  lemma MainLexemes()
    ensures Lexemes(Alternation(Keywords), MainSource) == MainWords
  {
    var r := Lexemes(Alternation(Keywords), MainSource);
    MainSpans();
    forall k | 0 <= k < |MainWords| ensures r[k] == MainWords[k] {
      MainSlice(k);
    }
  }

  /** In a text of word characters, each of the four keyword rules matches exactly
      when the text is one of its words. */
  lemma KeywordRulesOnWord(token: string)
    requires forall q | 0 <= q < |token| :: IsWordChar(token[q])
    ensures forall j | 0 <= j < 4 ::
      IsMatch(Keywords[j].pattern, token) <==> token in Keywords[j].pattern.alternatives
  {
    forall j | 0 <= j < 4
      ensures IsMatch(Keywords[j].pattern, token) <==> token in Keywords[j].pattern.alternatives
    {
      WholeWordInWord(Keywords[j].pattern.alternatives, token);
    }
  }

  /** A word that begins like a name is an IDENTIFIER exactly when it is none of the
      words of the four earlier rules: inside such a word \b holds only at its two
      edges, so a keyword rule matches in it only when it is the whole word. */
  lemma NameIsIdentifier(token: string)
    requires |token| > 0 && (IsLetter(token[0]) || token[0] == '_')
    requires forall q | 0 <= q < |token| :: IsWordChar(token[q])
    ensures GetTokenType(token) == IDENTIFIER <==>
      token !in {"int", "float", "true", "false", "console"}
  {
    if token in {"int", "float", "true", "false", "console"} {
      if token == "int" { IntIsInteger(); }
      else if token == "float" { FloatIsFloat(); }
      else if token == "true" { TrueIsBool(); }
      else if token == "false" { FalseIsBool(); }
      else { ConsoleIsConsole(); }
    } else {
      KeywordRulesOnWord(token);
      WordRunStopsAt(token, 1, |token|);
      assert MatchAt(Name, token, 0).Some?;
      ClassifiedBy(token, 4);
    }
  }

  /** = on its own is the ASSIGNMENT token. */
  lemma EqualsIsAssignment()
    ensures GetTokenType("=") == ASSIGNMENT
  {
    forall j | 0 <= j < 5 ensures !IsMatch(Keywords[j].pattern, "=") {
      StartingRules(j, '=');
      NoMatchWithoutStart(Keywords[j].pattern, "=", 0);
    }
    assert MatchAt(Keywords[5].pattern, "=", 0) == Some(1);
    ClassifiedBy("=", 5);
  }

  /** The tokens of the driver's source. */
  const MainTokens: seq<Token> := [
    Token(INTEGER, "int"), Token(IDENTIFIER, "num1"), Token(ASSIGNMENT, "="), Token(NUMBER, "1"),
    Token(INTEGER, "int"), Token(IDENTIFIER, "num2"), Token(ASSIGNMENT, "="), Token(NUMBER, "2")
  ]

  lemma MainClassified(k: nat)
    requires k < |MainWords|
    ensures GetTokenType(MainWords[k]) == MainTokens[k].kind && MainWords[k] == MainTokens[k].value
  {
    if k == 0 || k == 4 { IntIsInteger(); }
    else if k == 1 || k == 5 { NameIsIdentifier(MainWords[k]); }
    else if k == 2 || k == 6 { EqualsIsAssignment(); }
    else if k == 3 { NumbersAreNumber(); }
    else { DigitIsNumber('2'); }
  }

  /** The driver's source lexes to INTEGER, IDENTIFIER, ASSIGNMENT, NUMBER twice over;
      the ';' between the two declarations produces no token. */
  lemma MainSourceTokens()
    ensures Scanned(MainSource) == MainTokens
  {
    var r := Scanned(MainSource);
    MainLexemes();
    assert |r| == |MainTokens|;
    forall k | 0 <= k < |r| ensures r[k] == MainTokens[k] {
      MainClassified(k);
    }
  }

  /** In 1int the digit is a match of its own, and the int after it, which has no
      word boundary before it, is reached through the IDENTIFIER rule's match. */
  lemma GluedMatches()
    ensures FirstAlternative(Alternation(Keywords), "1int", 0) == Some(Hit(6, 1))
    ensures FirstAlternative(Alternation(Keywords), "1int", 1) == Some(Hit(4, 4))
  {
    var s := "1int";
    var alts := Alternation(Keywords);
    DigitAt(s, 0);
    assert !IsBoundary(s, 1);
    forall j | 0 <= j < 4 ensures MatchAt(alts[j], s, 1).None? {
    }
    WordRunStopsAt(s, 2, 4);
    assert MatchAt(alts[4], s, 1) == Some(4);
    FirstAlternativeIs(alts, s, 1, 4, 4);
  }

  lemma GluedSpans()
    ensures Scan(Alternation(Keywords), "1int", 0) == [Span(0, 1), Span(1, 4)]
  {
    var spans := [Span(0, 1), Span(1, 4)];
    GluedMatches();
    assert MatchedAtStarts(Alternation(Keywords), "1int", 0, spans);
    forall q | 0 <= q < 4 ensures !Uncovered(spans, q) {
      var k := if q < 1 then 0 else 1;
      assert spans[k].start <= q < spans[k].end;
    }
    LeftmostFirstIsUnique(Alternation(Keywords), "1int", 0, spans);
  }

  /** The scan-then-reclassify design at work: 1int lexes to the NUMBER 1 followed by
      int, which the scan found as a name but which GetTokenType classifies as the
      INTEGER keyword, since int is a whole word once it stands alone. */
  lemma GluedTokens()
    ensures Scanned("1int") == [Token(NUMBER, "1"), Token(INTEGER, "int")]
  {
    GluedLexemes();
    GluedKinds();
  }

  lemma GluedKinds()
    ensures GetTokenType("1") == NUMBER && GetTokenType("int") == INTEGER
  {
    DigitIsNumber('1');
    IntIsInteger();
  }

  lemma GluedLexemes()
    ensures Lexemes(Alternation(Keywords), "1int") == ["1", "int"]
  {
    GluedSpans();
    assert "1int"[0..1] == "1" && "1int"[1..4] == "int";
  }
}
