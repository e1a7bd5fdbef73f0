/**
 * The scanning loop itself: one pass over the input that keeps the current
 * state and lexeme in two variables and collects the events it writes.
 */
module Lexer {
  import opened Automaton
  import opened Scanning

  /** Scans `input` character by character. The events are exactly those of
      `Scan`: at most one per character, each a well-formed token or
      report. A lexeme still pending at the end of the input is dropped. */
  method LexAutomataAnalyze(input: string) returns (events: seq<Event>)
    ensures events == Scan(input)
    ensures |events| <= |input|
    ensures forall k :: 0 <= k < |events| ==> WellFormedEvent(events[k])
  {
    var currentState := Start;
    var currentLexeme := "";
    events := [];
    for i := 0 to |input|
      invariant RunFrom(Initial, input[..i]) == Trace(Scanner(currentState, currentLexeme), events)
      invariant WellFormed(Scanner(currentState, currentLexeme))
    {
      var ch := input[i];
      var symbol := GetSymbol(ch);
      var nextState := Lookup(currentState, symbol);
      StepPreservesWellFormed(Scanner(currentState, currentLexeme), ch);
      assert input[..i + 1] == input[..i] + [ch];
      ghost var o := Step(Scanner(currentState, currentLexeme), ch);
      if nextState == Final {
        var kind := ClassifyToken(currentState, currentLexeme);
        assert o == Outcome(Initial, [Token(kind, currentLexeme)]);
        events := events + [Token(kind, currentLexeme)];
        currentLexeme := "";
        currentState := Start;
      } else if nextState == Error {
        assert o == Outcome(Initial, [Diagnostic(currentLexeme + [ch])]);
        events := events + [Diagnostic(currentLexeme + [ch])];
        currentLexeme := "";
        currentState := Start;
      } else {
        assert o == Outcome(Scanner(nextState, currentLexeme + [ch]), []);
        currentLexeme := currentLexeme + [ch];
        currentState := nextState;
      }
    }
    assert input[..|input|] == input;
    RunPreservesWellFormed(Initial, input);
  }
}
