/** The parser of Compiler/Program.cs: a state machine over the token list that
    repeatedly recognises a declaration `TypeKeyword IDENTIFIER [= NUMBER]`.
    Console output becomes a ghost trace of events and the exceptions become a
    Failure outcome carrying the offending kinds. */
module ProgramParser {
  import opened Regex
  import opened ProgramLexer

  /** What the parser reports on the console. */
  datatype Event =
    | Declared(varType: TokenTypes, name: string)
    | Assigned(name: string, value: string)

  /** The exceptions the parser raises. */
  datatype ParseError =
    | InvalidSyntax(expected: TokenTypes)
    | InvalidDeclaration
    | InvalidVariableName
    | InvalidAssignment(found: TokenTypes, into: TokenTypes)

  datatype Outcome = Success | Failure(error: ParseError)

  /** Where one declaration leaves the parser: at the index of the next one, or
      stopped by an exception. */
  datatype Progress = Next(index: nat) | Stop(error: ParseError)

  /** The events one declaration reports and where it leaves the parser. */
  datatype Step = Step(events: seq<Event>, progress: Progress)

  /** The events a whole parse reports, the exception that ended it, if any, and the
      index where it leaves the parser. */
  datatype Trace = Trace(events: seq<Event>, error: Option<ParseError>, index: nat)

  /** The outcome a declaration reports to its caller. */
  function OutcomeOf(p: Progress): (r: Outcome)
  {
    match p
    case Next(_) => Success
    case Stop(e) => Failure(e)
  }

  predicate IsTypeKeyword(k: TokenTypes) { k == INTEGER || k == BOOL || k == FLOAT }

  /** Where a declaration starting at i that raises e leaves the index: the keyword is
      already consumed before an invalid name, and the keyword, the name and = before
      an invalid assignment. */
  function FailedAt(i: nat, e: ParseError): (r: nat)
    ensures i <= r <= i + 3
  {
    match e
    case InvalidVariableName => i + 1
    case InvalidAssignment(_, _) => i + 3
    case _ => i
  }

  /** One declaration starting at token i, stated on indices: a type keyword, an
      identifier, and optionally = and a NUMBER, where the NUMBER is consumed only
      for an INTEGER declaration. A keyword at the end of the list fails as an
      invalid variable name, and = at the end fails as assigning ASSIGNMENT. */
  function Decl(tokens: seq<Token>, i: nat): (r: Step)
    requires i < |tokens|
    ensures r.progress.Next? ==> i + 2 <= r.progress.index <= i + 4 && r.progress.index <= |tokens|
    ensures r.progress.Stop? ==> !r.progress.error.InvalidSyntax?
    ensures r.progress.Stop? ==> FailedAt(i, r.progress.error) <= |tokens|
    ensures r.progress.Next? ==> |r.events| > 0
  {
    var t := tokens[i].kind;
    if !IsTypeKeyword(t) then Step([], Stop(InvalidDeclaration))
    else if i + 1 == |tokens| || tokens[i + 1].kind != IDENTIFIER then Step([], Stop(InvalidVariableName))
    else
      var declared := [Declared(t, tokens[i + 1].value)];
      if i + 2 == |tokens| || tokens[i + 2].kind != ASSIGNMENT then Step(declared, Next(i + 2))
      else if i + 3 == |tokens| then Step(declared, Stop(InvalidAssignment(ASSIGNMENT, t)))
      else if tokens[i + 3].kind != NUMBER then Step(declared, Stop(InvalidAssignment(tokens[i + 3].kind, t)))
      else if t == INTEGER then
        Step(declared + [Assigned(tokens[i + 1].value, tokens[i + 3].value)], Next(i + 4))
      else Step(declared, Next(i + 3))
  }

  /** Declarations from token i to the end of the list or to the first exception. */
  function Run(tokens: seq<Token>, i: nat): (r: Trace)
    requires i <= |tokens|
    ensures r.error.Some? ==> !r.error.value.InvalidSyntax?
    ensures i <= r.index <= |tokens|
    ensures r.error.None? ==> r.index == |tokens|
    decreases |tokens| - i
  {
    if i == |tokens| then Trace([], None, |tokens|)
    else
      var step := Decl(tokens, i);
      match step.progress
      case Stop(e) => Trace(step.events, Some(e), FailedAt(i, e))
      case Next(j) =>
        var rest := Run(tokens, j);
        Trace(step.events + rest.events, rest.error, rest.index)
  }

  /** Each declaration reports at most two events and takes at least two tokens, so a
      run reports at most one event per token. */
  lemma {:induction false} RunEventsBounded(tokens: seq<Token>, i: nat)
    requires i <= |tokens|
    ensures |Run(tokens, i).events| <= |tokens| - i
    decreases |tokens| - i
  {
    if i < |tokens| {
      var step := Decl(tokens, i);
      assert |step.events| <= 2;
      if step.progress.Next? {
        RunEventsBounded(tokens, step.progress.index);
      }
    }
  }

  /** At the end of the list the run reports nothing and succeeds. */
  lemma RunAtEnd(tokens: seq<Token>)
    ensures Run(tokens, |tokens|) == Trace([], None, |tokens|)
  {
  }

  /** A declaration that succeeds is followed by the run from where it leaves the
      parser. */
  lemma RunNext(tokens: seq<Token>, i: nat)
    requires i < |tokens| && Decl(tokens, i).progress.Next?
    ensures var j := Decl(tokens, i).progress.index;
      Run(tokens, i) ==
        Trace(Decl(tokens, i).events + Run(tokens, j).events, Run(tokens, j).error, Run(tokens, j).index)
  {
  }

  /** A declaration that fails ends the run with its error. */
  lemma RunStops(tokens: seq<Token>, i: nat)
    requires i < |tokens| && Decl(tokens, i).progress.Stop?
    ensures var e := Decl(tokens, i).progress.error;
      Run(tokens, i) == Trace(Decl(tokens, i).events, Some(e), FailedAt(i, e))
  {
  }

  /** The token lists the parser accepts from index i, as a grammar:
        Declarations := empty
                      | TypeKeyword IDENTIFIER Declarations
                      | INTEGER IDENTIFIER ASSIGNMENT NUMBER Declarations */
  predicate Accepted(tokens: seq<Token>, i: nat)
    requires i <= |tokens|
    decreases |tokens| - i
  {
    if i == |tokens| then true
    else if i + 1 < |tokens| && IsTypeKeyword(tokens[i].kind) && tokens[i + 1].kind == IDENTIFIER then
      Accepted(tokens, i + 2) ||
      (i + 3 < |tokens| && tokens[i].kind == INTEGER && tokens[i + 2].kind == ASSIGNMENT &&
       tokens[i + 3].kind == NUMBER && Accepted(tokens, i + 4))
    else false
  }

  /** A parse from index i ends without an exception exactly when the rest of the
      list is a sequence of declarations; in particular an assignment to a variable
      declared with a BOOL (true or false) or FLOAT keyword always ends in an
      exception, because its NUMBER is left behind and read as the start of the next
      declaration. */
  lemma {:induction false} RunSucceedsIffAccepted(tokens: seq<Token>, i: nat)
    requires i <= |tokens|
    ensures Run(tokens, i).error.None? <==> Accepted(tokens, i)
    decreases |tokens| - i
  {
    if i < |tokens| {
      var step := Decl(tokens, i);
      if i + 2 < |tokens| && tokens[i + 2].kind == ASSIGNMENT {
        assert !Accepted(tokens, i + 2);
      }
      match step.progress
      case Stop(_) =>
      case Next(j) =>
        RunSucceedsIffAccepted(tokens, j);
        if j == i + 3 {
          assert Decl(tokens, j).progress == Stop(InvalidDeclaration);
        }
    }
  }

  /** What one declaration reports: nothing, the declaration alone, or, for an
      INTEGER variable, the declaration followed by the assignment to that variable. */
  lemma DeclReports(tokens: seq<Token>, i: nat)
    requires i < |tokens|
    ensures var events := Decl(tokens, i).events;
      events == [] ||
      (i + 1 < |tokens| && events[0] == Declared(tokens[i].kind, tokens[i + 1].value) &&
       IsTypeKeyword(tokens[i].kind) &&
       (|events| == 1 ||
        (|events| == 2 && i + 3 < |tokens| && tokens[i].kind == INTEGER && tokens[i + 3].kind == NUMBER &&
         events[1] == Assigned(tokens[i + 1].value, tokens[i + 3].value))))
  {
  }

  /** Every assignment event directly follows the declaration of the same variable
      as INTEGER. */
  predicate AssignmentsFollowDeclarations(events: seq<Event>)
  {
    forall k | 0 <= k < |events| && events[k].Assigned? ::
      0 < k && events[k - 1] == Declared(INTEGER, events[k].name)
  }

  /** Nothing is assigned that was not declared just before as an INTEGER. */
  lemma {:induction false} AssignedFollowsIntegerDeclaration(tokens: seq<Token>, i: nat)
    requires i <= |tokens|
    ensures AssignmentsFollowDeclarations(Run(tokens, i).events)
    decreases |tokens| - i
  {
    if i < |tokens| {
      var step := Decl(tokens, i);
      DeclReports(tokens, i);
      if step.progress.Next? {
        var j := step.progress.index;
        AssignedFollowsIntegerDeclaration(tokens, j);
        var events := Run(tokens, i).events;
        var rest := Run(tokens, j).events;
        assert events == step.events + rest;
        forall k | 0 <= k < |events| && events[k].Assigned?
          ensures 0 < k && events[k - 1] == Declared(INTEGER, events[k].name)
        {
          if k >= |step.events| {
            var m := k - |step.events|;
            assert events[k] == rest[m];
            assert 0 < m && rest[m - 1] == Declared(INTEGER, rest[m].name);
            assert events[k - 1] == rest[m - 1];
          } else {
            assert events[k] == step.events[k] && events[0] == step.events[0];
            assert k == 1;
            assert step.events[0] == Declared(INTEGER, step.events[1].name);
          }
        }
      }
    }
  }

  /** An assignment to a variable declared with a BOOL keyword (in this lexer's table
      the literals true and false) or a FLOAT keyword reports the declaration and then
      fails: the NUMBER is not consumed and cannot start a declaration. */
  lemma NonIntegerAssignmentFails(tokens: seq<Token>, i: nat)
    requires i + 3 < |tokens|
    requires tokens[i].kind == BOOL || tokens[i].kind == FLOAT
    requires tokens[i + 1].kind == IDENTIFIER && tokens[i + 2].kind == ASSIGNMENT
    requires tokens[i + 3].kind == NUMBER
    ensures Run(tokens, i) ==
      Trace([Declared(tokens[i].kind, tokens[i + 1].value)], Some(InvalidDeclaration), i + 3)
  {
    assert Decl(tokens, i).progress == Next(i + 3);
    assert Decl(tokens, i + 3).progress == Stop(InvalidDeclaration);
  }

  /** A declaration that starts at a type keyword ending the list fails as a missing
      variable name: the current token is still the keyword when the name is looked
      for. */
  lemma MissingNameAtEnd(tokens: seq<Token>)
    requires |tokens| > 0 && IsTypeKeyword(tokens[|tokens| - 1].kind)
    ensures Run(tokens, |tokens| - 1) == Trace([], Some(InvalidVariableName), |tokens|)
  {
  }

  /** A declaration that ends with = fails as an assignment of ASSIGNMENT: the
      current token is still the = when the value is looked for. */
  lemma MissingValueAtEnd(tokens: seq<Token>, i: nat)
    requires i + 3 == |tokens| && IsTypeKeyword(tokens[i].kind)
    requires tokens[i + 1].kind == IDENTIFIER && tokens[i + 2].kind == ASSIGNMENT
    ensures Run(tokens, i) ==
      Trace([Declared(tokens[i].kind, tokens[i + 1].value)],
            Some(InvalidAssignment(ASSIGNMENT, tokens[i].kind)), |tokens|)
  {
  }

  /** Parsing the tokens of "int num1 = 1;int num2 = 2" reports both declarations
      with their assignments and succeeds. */
  lemma MainSourceParse()
    ensures Run(Scanned(MainSource), 0) == Trace([
      Declared(INTEGER, "num1"), Assigned("num1", "1"),
      Declared(INTEGER, "num2"), Assigned("num2", "2")], None, 8)
  {
    MainSourceTokens();
    MainTokensParse();
  }

  lemma MainTokensParse()
    ensures Run(MainTokens, 0) == Trace([
      Declared(INTEGER, "num1"), Assigned("num1", "1"),
      Declared(INTEGER, "num2"), Assigned("num2", "2")], None, 8)
  {
    assert Decl(MainTokens, 4).progress == Next(8);
    assert Decl(MainTokens, 0).progress == Next(4);
  }

  class Parser {
    const tokens: seq<Token>
    var currentIndex: nat
    var currentToken: Token
    ghost var trace: seq<Event>

    /** The index stays within the list; the current token is the one at the index,
        or the last one once the index has reached the end. */
    ghost predicate Valid()
      reads this
    {
      |tokens| > 0 && currentIndex <= |tokens| &&
      currentToken == tokens[if currentIndex < |tokens| then currentIndex else |tokens| - 1]
    }

    constructor (tokens: seq<Token>)
      requires |tokens| > 0
      ensures Valid() && this.tokens == tokens && currentIndex == 0 && trace == []
    {
      this.tokens := tokens;
      currentIndex := 0;
      currentToken := tokens[0];
      trace := [];
    }

    /** Moves to the next token; at the end of the list the current token is left
        as it was. */
    method Advance()
      requires Valid() && currentIndex < |tokens|
      modifies this`currentIndex, this`currentToken
      ensures Valid()
      ensures currentIndex == old(currentIndex) + 1
      ensures currentToken == if currentIndex < |tokens| then tokens[currentIndex] else old(currentToken)
    {
      currentIndex := currentIndex + 1;
      if currentIndex < |tokens| {
        currentToken := tokens[currentIndex];
      }
    }

    /** Advances when the current token has the expected kind, and otherwise fails
        with a syntax error naming that kind and changes nothing. */
    method ConsumeToken(kind: TokenTypes) returns (outcome: Outcome)
      requires Valid() && currentIndex < |tokens|
      modifies this`currentIndex, this`currentToken
      ensures Valid()
      ensures old(currentToken).kind == kind ==>
        outcome == Success && currentIndex == old(currentIndex) + 1 &&
        currentToken == if currentIndex < |tokens| then tokens[currentIndex] else old(currentToken)
      ensures old(currentToken).kind != kind ==>
        outcome == Failure(InvalidSyntax(kind)) && unchanged(this)
    {
      if currentToken.kind == kind {
        Advance();
        outcome := Success;
      } else {
        outcome := Failure(InvalidSyntax(kind));
      }
    }

    /** One declaration at the current token, with the assignment optional. */
    method DeclarationAssign() returns (outcome: Outcome)
      requires Valid() && currentIndex < |tokens|
      modifies this`currentIndex, this`currentToken, this`trace
      ensures Valid()
      ensures trace == old(trace) + Decl(tokens, old(currentIndex)).events
      ensures outcome == OutcomeOf(Decl(tokens, old(currentIndex)).progress)
      ensures Decl(tokens, old(currentIndex)).progress.Next? ==>
        currentIndex == Decl(tokens, old(currentIndex)).progress.index
      ensures Decl(tokens, old(currentIndex)).progress.Stop? ==>
        currentIndex == FailedAt(old(currentIndex), Decl(tokens, old(currentIndex)).progress.error)
    {
      ghost var i := currentIndex;
      if currentToken.kind == INTEGER || currentToken.kind == BOOL || currentToken.kind == FLOAT {
        var variableType := currentToken.kind;
        var consumed := ConsumeToken(variableType);
        assert consumed == Success;
        if currentToken.kind == IDENTIFIER {
          var variableName := currentToken.value;
          consumed := ConsumeToken(IDENTIFIER);
          assert consumed == Success;
          trace := trace + [Declared(variableType, variableName)];
          if currentToken.kind == ASSIGNMENT {
            consumed := ConsumeToken(ASSIGNMENT);
            assert consumed == Success;
            if currentToken.kind == NUMBER {
              if variableType == INTEGER {
                var value := currentToken.value;
                consumed := ConsumeToken(currentToken.kind);
                assert consumed == Success;
                trace := trace + [Assigned(variableName, value)];
              }
            } else {
              outcome := Failure(InvalidAssignment(currentToken.kind, variableType));
              return;
            }
          }
        } else {
          outcome := Failure(InvalidVariableName);
          return;
        }
      } else {
        outcome := Failure(InvalidDeclaration);
        return;
      }
      outcome := Success;
    }

    /** Parses declarations until the end of the list; the first exception ends
        the parse. */
    method Parse() returns (outcome: Outcome)
      requires Valid()
      modifies this`currentIndex, this`currentToken, this`trace
      ensures Valid()
      ensures var run := Run(tokens, old(currentIndex));
        trace == old(trace) + run.events &&
        outcome == (if run.error.Some? then Failure(run.error.value) else Success)
      ensures currentIndex == Run(tokens, old(currentIndex)).index
      ensures outcome == Success ==> currentIndex == |tokens|
    {
      ghost var start := currentIndex;
      while currentIndex < |tokens|
        invariant Valid() && start <= currentIndex
        invariant trace + Run(tokens, currentIndex).events == old(trace) + Run(tokens, start).events
        invariant Run(tokens, currentIndex).error == Run(tokens, start).error
        invariant Run(tokens, currentIndex).index == Run(tokens, start).index
        decreases |tokens| - currentIndex
      {
        ghost var before := currentIndex;
        var declared := DeclarationAssign();
        if declared.Failure? {
          RunStops(tokens, before);
          outcome := declared;
          return;
        }
        RunNext(tokens, before);
      }
      RunAtEnd(tokens);
      outcome := Success;
    }
  }
}
