# A toy compiler front end: two regex lexers and a declaration parser

The repository is a small C# compiler front end in two independent programs.

- `Compiler/Program.cs` has a `Lexer`, a `Parser` and a driver.
  - The lexer joins an eight-entry table of (token kind, regular expression) pairs into one alternation. It scans the source with it and appends one `Token` per match. The kind of each match is found again by testing the table's patterns, in order, against the match's text.
  - The parser walks the token list with an index and a current token. It recognises declarations of the form `int|true|false|float NAME [= NUMBER]`: the lexer's BOOL kind comes from the literals `true` and `false`, and `bool` lexes as an IDENTIFIER, so `bool flag = 5` fails as an invalid declaration with no event while `true x = 1` declares `x` with kind BOOL. It reports each declaration, and each assignment to an `int` variable, on the console. It throws on anything else.
- `Compiler/Tokenizer.cs` has a second lexer of the same design with a sixteen-entry table. That table adds the `bool` keyword, punctuation, and separate integer and floating-point literals.

The Dafny project has four modules.

- `Regex` (`regex.dfy`) is the fragment of .NET regular expressions the two tables use. It contains:
  - one recogniser per pattern shape (`\bint\b`, `\b(?:true|false)\b`, `[a-zA-Z_]\w*`, `\d+(\.\d+)?`, `\b\d+\.\d+\b`, `\b\d+\b`, and one-character classes);
  - the leftmost-first scan that `Regex.Matches` performs over an alternation;
  - the unanchored test of `Regex.IsMatch`;
  - the first-match search over an ordered rule table.

  The scan is a function, `Scan`. It is proved to be the unique segmentation of the text in which every match is the alternation's match at its own start, matches do not overlap, and no uncovered position starts a match.
- `ProgramLexer` (`program_lexer.dfy`) is the lexer of `Program.cs`. It is a class whose `Tokenize` method appends to a token-list field. The method is proved against the specification function `Scanned`.
- `TokenizerLexer` (`tokenizer_lexer.dfy`) is the lexer of `Tokenizer.cs`, in the same form.
- `ProgramParser` (`program_parser.dfy`) is the parser of `Program.cs`. It is a class with the index, the current token and a ghost trace of console events. Its methods are proved equal to two specification functions:
  - `Decl` is one declaration, stated on indices.
  - `Run` is declarations up to the end or to the first exception.

  `Run` is proved to succeed exactly on the token lists of a small grammar (`Accepted`).

What the code does, as the model states it:
- The assignment part of a declaration is optional.
- The parser keeps no symbol table and checks no types beyond the `int`-only assignment.
- An alternation takes the first alternative that matches at a position, not the longest match.
- In `Program.cs` the literals `true` and `false` are the `BOOL` kind, and there is no `bool` keyword: `bool` lexes as an `IDENTIFIER`.

Behaviour of the code that the model makes explicit:
- When the parser reaches the end of the list, the current token is not refreshed. A declaration that starts at a type keyword ending the list therefore fails as an invalid variable name. A declaration `type NAME =` that ends the list fails as an assignment of `ASSIGNMENT`.
- An assignment to a variable declared with a BOOL (`true`/`false`) or FLOAT keyword leaves its `NUMBER` unconsumed. That `NUMBER` then fails as an invalid declaration.
- The `;` of `Program.cs` matches no pattern of its table and never becomes a token.
- A token's kind is decided again from its text alone, after the scan. So `1int` lexes in `Program.cs` to the NUMBER `1` and then `int`. The scan found `int` through the IDENTIFIER rule, since there is no word boundary before it, but once it stands alone it is the INTEGER keyword. In `Tokenizer.cs` the same text gives only the INT token `int`: the integer rules need a word boundary after the digit, so the digit yields no token.

## Model

| member | source | states |
|---|---|---|
| Regex.MatchAt | Compiler/Tokenizer.cs:53-68 | the recogniser of one pattern at one position, for every pattern of this table and of Compiler/Program.cs:46-53: a match ends after its start and inside the text; what it matches is characterised by DigitRunEnd, WordRunEnd, WholeWordEnd, MatchAlphabet and WholeDecimalShape |
| Regex.DigitRunEnd | Compiler/Program.cs:52 | the greedy `\d` run from i ends at the first non-digit or at the end of the text, and everything before it is a digit |
| Regex.WordRunEnd | Compiler/Program.cs:50 | the greedy `\w` run from i ends at the first non-word character or at the end of the text |
| Regex.WholeWordEnd | Compiler/Program.cs:46-49 | a whole-word match of a keyword group at p spells one of the alternatives and ends on a word boundary; no match means no alternative is spelled there ending on a boundary |
| Regex.MatchAlphabet | Compiler/Program.cs:46-53 | a match begins with a character that can begin the pattern and consists only of characters of the pattern's alphabet |
| Regex.NoMatchAtWithoutStart | Compiler/Program.cs:46-53 | no match starts at a character that cannot begin the pattern |
| Regex.WholeDecimalShape | Compiler/Tokenizer.cs:66 | a match of `\b\d+\.\d+\b` is a digit run, one dot and a digit run |
| Regex.WholeDecimalSplit | Compiler/Tokenizer.cs:66 | the text of such a match is `a + "." + b` with a and b non-empty digit strings |
| Regex.FirstAlternative | Compiler/Program.cs:58-60 | the alternation at one position: a reported hit names an alternative of the list and ends after the position, inside the text; characterised by FirstAlternativeIsFirst |
| Regex.FirstAlternativeIsFirst | Compiler/Program.cs:58-60 | the alternation reports the first alternative, in table order, that matches at p, with its end; it reports nothing only when no alternative matches there |
| Regex.FirstAlternativeIs | Compiler/Program.cs:58-60 | an alternative that matches, with no earlier alternative matching, is the one reported |
| Regex.Scan | Compiler/Program.cs:60 | the matches of `Regex.Matches`: every span starts at or after the scan's start and is non-empty and inside the text; characterised by ScanIsLeftmostFirst and LeftmostFirstIsUnique |
| Regex.ScanIsLeftmostFirst | Compiler/Program.cs:60-61 | the matches Scan returns are each the alternation's match at their start, come in order without overlap, and leave uncovered only positions where nothing matches |
| Regex.LeftmostFirstIsUnique | Compiler/Program.cs:60-61 | any list of spans with those three properties is exactly Scan's result |
| Regex.SpanBounds | Compiler/Program.cs:60-61 | every span of such a segmentation is non-empty and inside the text |
| Regex.Lexemes | Compiler/Program.cs:60-63 | the `match.Value` of every match, one per span of the scan: each is non-empty and no longer than the text |
| Regex.LexemeOrigin | Compiler/Program.cs:61-64 | every lexeme is the text of some alternative's match at its span's start, so each of its characters is in that alternative's alphabet |
| Regex.WholeWordInWord | Compiler/Program.cs:46-49 | in a text made only of word characters, a whole-word group matches somewhere exactly when the whole text is one of its words |
| Regex.MatchesFrom | Compiler/Program.cs:73 | IsMatch holds exactly when some start position yields a match (unanchored search) |
| Regex.NoMatchWithoutStart | Compiler/Program.cs:73 | a pattern matches nowhere in a text none of whose characters can begin it |
| Regex.FirstRule | Compiler/Program.cs:71-78 | the loop over the table in GetTokenType: a returned index is inside the table; characterised by FirstRuleIsFirst and FirstRuleIs |
| Regex.FirstRuleIsFirst | Compiler/Program.cs:71-78 | the first-rule search returns the first rule, in table order, whose pattern matches somewhere in the text, and none only when no rule matches |
| Regex.FirstRuleIs | Compiler/Program.cs:71-78 | a matching rule with no earlier matching rule is the one returned |
| ProgramLexer.GetTokenType | Compiler/Program.cs:69-79 | no contract of its own; characterised by GetTokenTypeIsFirstMatch and NameIsIdentifier |
| ProgramLexer.Scanned | Compiler/Program.cs:58-66 | no contract of its own: one token per match of the scan, with the kind GetTokenType gives its text; Tokenize is proved against it and LexemeCharacters and MainSourceTokens are stated on it |
| ProgramLexer.GetTokenTypeIsFirstMatch | Compiler/Program.cs:69-79 | the kind is UNKNOWN exactly when no pattern matches anywhere in the text; otherwise it is the kind of the first matching rule |
| ProgramLexer.ClassifiedBy | Compiler/Program.cs:69-79 | the first rule whose pattern matches decides the kind |
| ProgramLexer.Lexer.constructor | Compiler/Program.cs:36-40 | a new lexer keeps its source and starts with an empty token list |
| ProgramLexer.Lexer.Tokenize | Compiler/Program.cs:42-67 | the token list becomes the old list followed by one token per match, in scan order, each with the kind GetTokenType gives its text; the whole list is returned |
| ProgramLexer.TokenizeTwice | Compiler/Program.cs:42-67 | a second Tokenize on the same lexer returns the first result twice over, because both calls append to the same field |
| ProgramLexer.TableAlphabet | Compiler/Program.cs:44-56 | every character a pattern of the table can match is a word character, `=`, `.` or an operator, so never `;`, a parenthesis or white space |
| ProgramLexer.LexemeCharacters | Compiler/Program.cs:58-66 | no token text contains `;`, parentheses or white space |
| ProgramLexer.StartingRules | Compiler/Program.cs:44-56 | a digit can begin only the NUMBER rule; a letter other than i, f, t, c only the IDENTIFIER rule; a non-word character only a one-character rule listing it |
| ProgramLexer.IntIsInteger | Compiler/Program.cs:46 | `int` is INTEGER |
| ProgramLexer.FloatIsFloat | Compiler/Program.cs:47 | `float` is FLOAT |
| ProgramLexer.ConsoleIsConsole | Compiler/Program.cs:49 | `console` is CONSOLE |
| ProgramLexer.TrueIsBool | Compiler/Program.cs:48 | `true` is BOOL |
| ProgramLexer.FalseIsBool | Compiler/Program.cs:48 | `false` is BOOL |
| ProgramLexer.KeywordRulesMiss | Compiler/Program.cs:46-49 | text without i, f, t and c matches none of the four keyword rules |
| ProgramLexer.BoolIsIdentifier | Compiler/Program.cs:44-56 | `bool` is an IDENTIFIER, since this table has no bool keyword |
| ProgramLexer.DigitIsNumber | Compiler/Program.cs:52 | every single digit is NUMBER |
| ProgramLexer.NumbersAreNumber | Compiler/Program.cs:52 | `1` and `4.67` are both NUMBER |
| ProgramLexer.KeywordRulesOnWord | Compiler/Program.cs:46-49 | in a text of word characters, each of the four keyword rules matches exactly when the text is one of that rule's words |
| ProgramLexer.NameIsIdentifier | Compiler/Program.cs:46-50 | a word that begins with a letter or `_` is an IDENTIFIER exactly when it is none of `int`, `float`, `true`, `false`, `console` |
| ProgramLexer.EqualsIsAssignment | Compiler/Program.cs:51 | `=` is ASSIGNMENT |
| ProgramLexer.SeparatorStartsNothing | Compiler/Program.cs:44-60 | no match starts at a blank, a line break or `;` |
| ProgramLexer.MainSpans | Compiler/Program.cs:188-190 | the scan of the driver's verbatim source, `int num1 = 1;int num2 = 2` between a line break with twelve blanks and a line break with eight, finds exactly eight matches and skips the blanks, the line breaks and the `;` |
| ProgramLexer.MainSourceTokens | Compiler/Program.cs:188-195 | that source lexes to INTEGER, IDENTIFIER, ASSIGNMENT, NUMBER twice over |
| ProgramLexer.GluedMatches | Compiler/Program.cs:46-60 | in `1int` the alternation matches the digit alone through the NUMBER rule, and `int`, with no word boundary before it, through the IDENTIFIER rule |
| ProgramLexer.GluedSpans | Compiler/Program.cs:58-61 | the scan of `1int` finds exactly the matches `1` and `int` |
| ProgramLexer.GluedTokens | Compiler/Program.cs:58-79 | `1int` lexes to the NUMBER `1` followed by the INTEGER `int`: the kind is decided again from the text alone |
| TokenizerLexer.GetTokenType | Compiler/Tokenizer.cs:82-92 | no contract of its own; characterised by GetTokenTypeIsFirstMatch and NameIsIdentifier |
| TokenizerLexer.Scanned | Compiler/Tokenizer.cs:71-79 | no contract of its own: one token per match of the scan, with the kind GetTokenType gives its text; Tokenize is proved against it and LexemeCharacters, DotOnlyInFloatingPoint and SampleTokens are stated on it |
| TokenizerLexer.GetTokenTypeIsFirstMatch | Compiler/Tokenizer.cs:82-92 | the kind is UNKNOWN exactly when no pattern matches anywhere in the text; otherwise it is the kind of the first matching rule |
| TokenizerLexer.ClassifiedBy | Compiler/Tokenizer.cs:82-92 | the first rule whose pattern matches decides the kind |
| TokenizerLexer.Lexer.constructor | Compiler/Tokenizer.cs:43-47 | a new lexer keeps its source and starts with an empty token list |
| TokenizerLexer.Lexer.Tokenize | Compiler/Tokenizer.cs:49-80 | the token list becomes the old list followed by one token per match, each with the kind GetTokenType gives its text; the whole list is returned |
| TokenizerLexer.TokenizeTwice | Compiler/Tokenizer.cs:49-80 | a second Tokenize on the same lexer returns the first result twice over |
| TokenizerLexer.NoEarlierRuleMatches | Compiler/Tokenizer.cs:51-66 | text of digits and dots matches none of the thirteen rules before FLOATING_POINT |
| TokenizerLexer.DecimalIsFloatingPoint | Compiler/Tokenizer.cs:66-67 | digits, a dot and digits classify as FLOATING_POINT, never INTEGER, for all digit strings |
| TokenizerLexer.DigitsAreInteger | Compiler/Tokenizer.cs:67 | every non-empty digit string is INTEGER |
| TokenizerLexer.KeywordRulesMiss | Compiler/Tokenizer.cs:53-55 | text without the first letters of the first n keywords matches none of them |
| TokenizerLexer.IntIsInt | Compiler/Tokenizer.cs:53 | `int` is INT |
| TokenizerLexer.FloatIsFloat | Compiler/Tokenizer.cs:54 | `float` is FLOAT |
| TokenizerLexer.BoolIsBool | Compiler/Tokenizer.cs:55 | `bool` is BOOL, not IDENTIFIER |
| TokenizerLexer.TrueIsBoolLiteral | Compiler/Tokenizer.cs:56 | `true` is BOOL_LITERAL |
| TokenizerLexer.FalseIsBoolLiteral | Compiler/Tokenizer.cs:56 | `false` is BOOL_LITERAL, although it contains the f that begins float |
| TokenizerLexer.StartingRules | Compiler/Tokenizer.cs:51-69 | a digit can begin only the numeric rules; a letter other than i, f, t, b only IDENTIFIER; no word character begins a one-character rule; a non-word character begins only a one-character rule listing it |
| TokenizerLexer.SymbolIsItsOwnKind | Compiler/Tokenizer.cs:57-68 | a character listed by a one-character rule classifies, on its own, as that rule's kind |
| TokenizerLexer.PunctuationKinds | Compiler/Tokenizer.cs:57-63 | `;` is LINEEND and `:` is SEMICOLON; each bracket and the comma has its own kind |
| TokenizerLexer.AssignmentAndOperatorKinds | Compiler/Tokenizer.cs:65-68 | `=` is ASSIGNMENT and each of `+ - * /` is OPERATORS |
| TokenizerLexer.TableAlphabet | Compiler/Tokenizer.cs:51-69 | a pattern matches only word characters, `.` and the table's symbols, never white space, and only the floating-point rule matches `.` |
| TokenizerLexer.LexemeCharacters | Compiler/Tokenizer.cs:71-79 | no token text contains white space |
| TokenizerLexer.DotOnlyInFloatingPoint | Compiler/Tokenizer.cs:66-79 | every token whose text contains a dot is two non-empty digit runs around that one dot and is FLOATING_POINT, so a lone `.` yields no token |
| TokenizerLexer.WordMissesPunctuation | Compiler/Tokenizer.cs:57-63 | text made of word characters matches none of the punctuation rules |
| TokenizerLexer.KeywordRulesOnWord | Compiler/Tokenizer.cs:53-56 | in a text of word characters, each of the four keyword rules matches exactly when the text is one of that rule's words |
| TokenizerLexer.NameIsIdentifier | Compiler/Tokenizer.cs:53-64 | a word that begins with a letter or `_` is an IDENTIFIER exactly when it is none of `int`, `float`, `bool`, `true`, `false` |
| TokenizerLexer.ResultIsIdentifier | Compiler/Tokenizer.cs:64 | `result` is an IDENTIFIER, although it contains the t that begins true |
| TokenizerLexer.SampleSpans | Compiler/Tokenizer.cs:106 | the scan of `int result = (4.67*7);` finds nine matches and skips the three blanks |
| TokenizerLexer.SampleTokens | Compiler/Tokenizer.cs:106-113 | that line lexes to INT, IDENTIFIER, ASSIGNMENT, LPARENTHESES, FLOATING_POINT, OPERATORS, INTEGER, RPARENTHESES, LINEEND |
| TokenizerLexer.GluedMatches | Compiler/Tokenizer.cs:53-72 | in `1int` no rule matches at the digit, since the integer rules need a word boundary after it, and `int` is matched through the IDENTIFIER rule |
| TokenizerLexer.GluedSpans | Compiler/Tokenizer.cs:71-73 | the scan of `1int` finds the single match `int` |
| TokenizerLexer.GluedTokens | Compiler/Tokenizer.cs:71-92 | `1int` lexes to the single INT token `int` |
| ProgramParser.Decl | Compiler/Program.cs:133-180 | a declaration that succeeds moves the index on by two to four tokens and reports at least one event; one that fails never fails with a syntax error, and the index it leaves (FailedAt) is inside the list |
| ProgramParser.FailedAt | Compiler/Program.cs:133-180 | the index a failed declaration starting at i leaves behind: i for an invalid declaration, i + 1 for an invalid variable name (the type keyword is consumed), i + 3 for an invalid assignment (keyword, name and `=` consumed); never more than three tokens on |
| ProgramParser.Run | Compiler/Program.cs:123-131 | a parse never ends with the syntax error of ConsumeToken; the index it stops at lies between its start and the end of the list, and is the end of the list when no declaration fails |
| ProgramParser.RunEventsBounded | Compiler/Program.cs:123-180 | a parse reports at most one event per token |
| ProgramParser.RunSucceedsIffAccepted | Compiler/Program.cs:123-180 | a parse ends without an exception exactly when the tokens are a sequence of `type NAME` and `int NAME = NUMBER` declarations |
| ProgramParser.DeclReports | Compiler/Program.cs:141-161 | a declaration reports nothing, or its own declaration, or, for an INTEGER variable, the declaration followed by the assignment of the NUMBER's text |
| ProgramParser.AssignedFollowsIntegerDeclaration | Compiler/Program.cs:145-161 | every assignment event immediately follows the INTEGER declaration of the same variable |
| ProgramParser.NonIntegerAssignmentFails | Compiler/Program.cs:154-164 | a BOOL (`true`/`false`) or FLOAT keyword followed by `NAME = NUMBER` reports the declaration and then fails as an invalid declaration |
| ProgramParser.MissingNameAtEnd | Compiler/Program.cs:96-103 | a declaration that starts at a type keyword ending the list fails as an invalid variable name |
| ProgramParser.MissingValueAtEnd | Compiler/Program.cs:149-168 | `type NAME =` at the end of the list reports the declaration and fails as an assignment of ASSIGNMENT into that type |
| ProgramParser.MainSourceParse | Compiler/Program.cs:188-204 | the driver's source parses without an exception and reports both declarations with their assignments |
| ProgramParser.Parser.constructor | Compiler/Program.cs:89-94 | a new parser is at index 0 with the first token current |
| ProgramParser.Parser.Advance | Compiler/Program.cs:96-103 | the index moves on by one; the current token is refreshed only while the index is inside the list |
| ProgramParser.Parser.ConsumeToken | Compiler/Program.cs:106-121 | with the expected kind current it advances; otherwise it fails with a syntax error naming that kind and changes nothing |
| ProgramParser.Parser.DeclarationAssign | Compiler/Program.cs:133-180 | the trace grows by Decl's events, and the outcome is Decl's; on success the new index is Decl's next index, on failure it is FailedAt of the old index and the exception (the old index, one past it or three past it); ConsumeToken never fails inside it |
| ProgramParser.Parser.Parse | Compiler/Program.cs:123-131 | the trace grows by Run's events and the outcome is Run's; the final index is Run's: the end of the list on success, otherwise where the failing declaration left it |

## Left out

- Both `Main` methods are left out: the console printing and the token count. What the `Program.cs` driver does is stated by lemmas on its verbatim source text. For `Tokenizer.cs`, only its line `int result = (4.67*7);` is stated.
- Console output is not modelled as output. The parser's two messages become `Declared` and `Assigned` events in a ghost trace.
- Exception texts are left out. Each exception becomes a `ParseError` value that carries the kinds in its message.
- `\w` and `\d` are ASCII only. .NET also accepts other Unicode letters and digits.
- The rule order is the order in which each table's dictionary was filled. A fresh dictionary without removals enumerates its entries in that order, but .NET does not document it.
- The regex engine is not modelled in general. Each recogniser gives the match that the engine's backtracking reaches for its one pattern shape.
- `Tokenize` returns the token-list field itself. The model returns its value, so aliasing between the returned list and the field is not captured.
- ProgramParser.Parser.constructor: requires a non-empty token list. With an empty list the source's indexer throws, and that exception is not modelled.
- ProgramParser.Parser.Advance: requires the index to be inside the list. The source does not check this, but every call, made through ConsumeToken from DeclarationAssign, provably satisfies it.
- ProgramParser.Parser.ConsumeToken: requires the index to be inside the list, for the same reason as Advance.
