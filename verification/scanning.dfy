/**
 * The scanner's behaviour as functions: one step per input character, and
 * the run over a whole input. The imperative scanner in module Lexer is
 * proved to compute exactly `Scan`.
 */
module Scanning {
  import opened CType
  import opened Automaton

  /** The kind printed after a token: "Keyword", "Numeric Literal" or
      "Identifier". */
  datatype TokenKind = Keyword | Numeric | Identifier

  /** What the scanner writes out for one character: a classified token
      (standard output) or an "Unrecognized sequence" report (standard
      error) carrying the offending text. */
  datatype Event =
    | Token(kind: TokenKind, text: string)
    | Diagnostic(text: string)

  /** The reserved words recognised among identifier-like lexemes. */
  const Keywords: set<string> := {"function", "var", "return", "if", "else", "while", "for"}

  /** The scanner's two variables: the current state and the lexeme
      accumulated since the last token or error. */
  datatype Scanner = Scanner(state: State, lexeme: string)

  const Initial := Scanner(Start, "")

  /** A letter followed by letters and digits. */
  predicate IsIdentifierText(s: string) {
    |s| > 0 && IsAlpha(s[0]) && forall i :: 1 <= i < |s| ==> IsAlpha(s[i]) || IsDigit(s[i])
  }

  /** A non-empty run of digits. */
  predicate IsDigits(s: string) {
    |s| > 0 && forall i :: 0 <= i < |s| ==> IsDigit(s[i])
  }

  /** The kind of the token finished in state `before`: the keyword test
      comes first, then the state decides between a numeric literal and an
      identifier. */
  function ClassifyToken(before: State, lexeme: string): TokenKind {
    if lexeme in Keywords then Keyword
    else if before == NumericLiteral then Numeric
    else Identifier
  }

  /** The scanner's invariant: only Start, KeywordOrIdentifier and
      NumericLiteral are ever stored, the lexeme is empty exactly in Start,
      and the lexeme has the shape its state stands for. */
  predicate WellFormed(sc: Scanner) {
    && (sc.state == Start || sc.state == KeywordOrIdentifier || sc.state == NumericLiteral)
    && (sc.lexeme == [] <==> sc.state == Start)
    && (sc.state == KeywordOrIdentifier ==> IsIdentifierText(sc.lexeme))
    && (sc.state == NumericLiteral ==> IsDigits(sc.lexeme))
  }

  /** What an emitted event can look like: a keyword, an identifier that is
      not a keyword, or a run of digits; or a report of a lexeme (possibly
      empty) followed by the one character that had no transition. */
  predicate WellFormedEvent(e: Event) {
    match e
    case Token(kind, text) =>
      || (kind == Keyword && IsIdentifierText(text) && text in Keywords)
      || (kind == Identifier && IsIdentifierText(text) && text !in Keywords)
      || (kind == Numeric && IsDigits(text))
    case Diagnostic(text) =>
      |text| > 0 &&
      var lexeme := text[..|text| - 1];
      lexeme == [] || IsIdentifierText(lexeme) || IsDigits(lexeme)
  }

  /** The input characters an event stands for: a token's text followed
      by the character `end` that ended it, or a report's text (which
      already holds the offending character; `end` is then unused). */
  function Piece(e: Event, end: char): string {
    match e
    case Token(_, text) => text + [end]
    case Diagnostic(text) => text
  }

  /** The events spelled back out, in order, with `ends[k]` the character
      that ended event `k`. */
  function Spelled(events: seq<Event>, ends: string): string
    requires |ends| == |events|
  {
    if events == [] then []
    else Spelled(events[..|events| - 1], ends[..|ends| - 1]) + Piece(events[|events| - 1], ends[|ends| - 1])
  }

  datatype Outcome = Outcome(next: Scanner, emitted: seq<Event>)

  /** One iteration of the scanning loop: finish a token on a Final
      transition, report and reset on a missing one, otherwise append the
      character and move to the next state. */
  function Step(sc: Scanner, ch: char): (o: Outcome)
    ensures |o.emitted| <= 1
    ensures o.next.state != Final && o.next.state != Error
    ensures o.emitted == [] <==> o.next.lexeme == sc.lexeme + [ch]
    ensures o.emitted != [] ==> o.next == Initial
  {
    var nextState := Lookup(sc.state, GetSymbol(ch));
    if nextState == Final then
      Outcome(Initial, [Token(ClassifyToken(sc.state, sc.lexeme), sc.lexeme)])
    else if nextState == Error then
      Outcome(Initial, [Diagnostic(sc.lexeme + [ch])])
    else
      Outcome(Scanner(nextState, sc.lexeme + [ch]), [])
  }

  datatype Trace = Trace(scanner: Scanner, events: seq<Event>)

  /** Runs a per-character step over `input` from scanner `sc`, left to
      right: the final scanner and the events in order. It takes the step
      as a parameter so that facts about gluing inputs together are proved
      once, for any step, without looking inside `Step`. */
  function Fold(step: (Scanner, char) -> Outcome, sc: Scanner, input: string): (t: Trace)
    decreases |input|
  {
    if input == [] then Trace(sc, [])
    else
      var before := Fold(step, sc, input[..|input| - 1]);
      var o := step(before.scanner, input[|input| - 1]);
      Trace(o.next, before.events + o.emitted)
  }

  /** Folding over `a + b` is folding over `a`, then over `b` from where
      `a` left the scanner. */
  lemma {:induction false} FoldAppend(step: (Scanner, char) -> Outcome, sc: Scanner, a: string, b: string)
    ensures var ta := Fold(step, sc, a);
            var tb := Fold(step, ta.scanner, b);
            Fold(step, sc, a + b) == Trace(tb.scanner, ta.events + tb.events)
    decreases |b|
  {
    if b == [] {
      assert a + b == a;
    } else {
      var b' := b[..|b| - 1];
      FoldAppend(step, sc, a, b');
      assert (a + b)[..|a + b| - 1] == a + b';
      assert (a + b)[|a + b| - 1] == b[|b| - 1];
    }
  }

  /** Runs the loop over `input` from scanner `sc`. Every character yields
      at most one event. */
  function RunFrom(sc: Scanner, input: string): (t: Trace)
    ensures |t.events| <= |input|
  {
    RunBound(sc, input);
    Fold(Step, sc, input)
  }

  /** Each step emits at most one event, so a run emits at most one per
      character. */
  lemma {:induction false} RunBound(sc: Scanner, input: string)
    ensures |Fold(Step, sc, input).events| <= |input|
    decreases |input|
  {
    if input != [] {
      RunBound(sc, input[..|input| - 1]);
    }
  }

  /** The events of one scan of `input`, starting from Start with an empty
      lexeme. Nothing is done at the end of the input. */
  function Scan(input: string): seq<Event> {
    RunFrom(Initial, input).events
  }

  /** Every keyword starts with a letter, so no run of digits is one. */
  lemma DigitsAreNoKeyword(s: string)
    requires IsDigits(s)
    ensures s !in Keywords
  {
    assert IsDigit(s[0]);
  }

  /** Running over a single character is one step. */
  lemma RunFromOne(sc: Scanner, ch: char)
    ensures RunFrom(sc, [ch]) == Trace(Step(sc, ch).next, Step(sc, ch).emitted)
  {
    assert [ch][..0] == [];
    assert Fold(Step, sc, []) == Trace(sc, []);
  }

  /** One step keeps the invariant, and what it emits is well formed. */
  lemma StepPreservesWellFormed(sc: Scanner, ch: char)
    requires WellFormed(sc)
    ensures WellFormed(Step(sc, ch).next)
    ensures forall k :: 0 <= k < |Step(sc, ch).emitted| ==> WellFormedEvent(Step(sc, ch).emitted[k])
  {
    var o := Step(sc, ch);
    if o.emitted != [] && o.emitted[0].Token? {
      var text := sc.lexeme;
      if sc.state == KeywordOrIdentifier {
        assert IsIdentifierText(text);
      } else {
        DigitsAreNoKeyword(text);
      }
    } else if o.emitted != [] {
      assert o.emitted[0].text[..|o.emitted[0].text| - 1] == sc.lexeme;
    }
  }

  /** A token is emitted exactly when whitespace follows a non-empty
      lexeme. Its text is the lexeme without the whitespace, its kind is
      Keyword for a reserved word, Numeric when the lexeme was a number and
      Identifier otherwise, and the scanner is back at Start. */
  lemma StepEmitsToken(sc: Scanner, ch: char)
    requires WellFormed(sc)
    ensures var o := Step(sc, ch);
            (o.emitted != [] && o.emitted[0].Token?) <==> sc.state != Start && IsSpace(ch)
    ensures var o := Step(sc, ch);
            sc.state != Start && IsSpace(ch) ==>
              && o.next == Initial
              && o.emitted == [Token(ClassifyToken(sc.state, sc.lexeme), sc.lexeme)]
              && (o.emitted[0].kind == Keyword <==> sc.lexeme in Keywords)
              && (o.emitted[0].kind == Numeric <==> sc.lexeme !in Keywords && sc.state == NumericLiteral)
  {
  }

  /** A character the current state has no rule for is reported together
      with the lexeme before it, even an empty one, and is consumed: the
      scanner restarts at Start with an empty lexeme on the next
      character. At Start this includes whitespace, operators and
      punctuation. */
  lemma StepReportsUnrecognized(sc: Scanner, ch: char)
    requires WellFormed(sc)
    ensures var o := Step(sc, ch);
            (o.emitted != [] && o.emitted[0].Diagnostic?) <==>
              !(IsDigit(ch) || (IsAlpha(ch) && sc.state != NumericLiteral) || (IsSpace(ch) && sc.state != Start))
    ensures var o := Step(sc, ch);
            o.emitted != [] && o.emitted[0].Diagnostic? ==>
              o.emitted == [Diagnostic(sc.lexeme + [ch])] && o.next == Initial
  {
  }

  /** From a well-formed scanner, the run keeps the invariant and emits only
      well-formed events. */
  lemma {:induction false} RunPreservesWellFormed(sc: Scanner, input: string)
    requires WellFormed(sc)
    ensures WellFormed(RunFrom(sc, input).scanner)
    ensures forall k :: 0 <= k < |RunFrom(sc, input).events| ==> WellFormedEvent(RunFrom(sc, input).events[k])
    decreases |input|
  {
    if input != [] {
      var prefix := input[..|input| - 1];
      RunPreservesWellFormed(sc, prefix);
      StepPreservesWellFormed(RunFrom(sc, prefix).scanner, input[|input| - 1]);
    }
  }

  /** No character is lost or reordered except the pending lexeme: the
      emitted events spelled out in order (each token followed by the
      whitespace that ended it) and then the lexeme still pending give back
      the lexeme at the start followed by the input. A lexeme pending when
      the input ends produces no event. */
  lemma RunAccountsForEveryCharacter(sc: Scanner, input: string)
    ensures var t := RunFrom(sc, input);
            exists ends: string ::
              && |ends| == |t.events|
              && (forall k :: 0 <= k < |t.events| && t.events[k].Token? ==> IsSpace(ends[k]))
              && Spelled(t.events, ends) + t.scanner.lexeme == sc.lexeme + input
  {
    StepSpellsOut();
    var ends := FoldEnds(Step, sc, input);
  }

  /** Every step of the scanner spells out the character it reads. */
  lemma StepSpellsOut()
    ensures forall sc: Scanner, ch: char :: SpelledOut(sc, ch, Step(sc, ch))
  {
    forall sc: Scanner, ch: char ensures SpelledOut(sc, ch, Step(sc, ch)) {
      if Step(sc, ch).emitted != [] {
        assert Step(sc, ch).emitted == [Step(sc, ch).emitted[0]];
      }
    }
  }

  /** One step spells out the character it reads: either it appends the
      character to the lexeme and emits nothing, or it emits one event that
      spells the lexeme plus the character (a token only on whitespace)
      and restarts at Start with an empty lexeme. */
  predicate SpelledOut(sc: Scanner, ch: char, o: Outcome) {
    || (o.emitted == [] && o.next.lexeme == sc.lexeme + [ch])
    || (&& |o.emitted| == 1 && o.next == Initial
        && Piece(o.emitted[0], ch) == sc.lexeme + [ch]
        && (o.emitted[0].Token? ==> IsSpace(ch)))
  }

  /** The characters that ended the events of a fold whose every step
      spells out its character, with the spelling they give. */
  lemma {:induction false} FoldEnds(step: (Scanner, char) -> Outcome, sc: Scanner, input: string)
      returns (ends: string)
    requires forall sc': Scanner, ch: char :: SpelledOut(sc', ch, step(sc', ch))
    ensures var t := Fold(step, sc, input);
            && |ends| == |t.events|
            && (forall k :: 0 <= k < |t.events| && t.events[k].Token? ==> IsSpace(ends[k]))
            && Spelled(t.events, ends) + t.scanner.lexeme == sc.lexeme + input
    decreases |input|
  {
    var t := Fold(step, sc, input);
    if input == [] {
      ends := [];
      assert Spelled(t.events, ends) + t.scanner.lexeme == sc.lexeme + input;
    } else {
      var prefix, ch := input[..|input| - 1], input[|input| - 1];
      var before := Fold(step, sc, prefix);
      var ends0 := FoldEnds(step, sc, prefix);
      var o := step(before.scanner, ch);
      assert SpelledOut(before.scanner, ch, o);
      assert t == Trace(o.next, before.events + o.emitted);
      assert sc.lexeme + input == (sc.lexeme + prefix) + [ch];
      ends := SpellOneMore(before.events, ends0, before.scanner, ch, o, sc.lexeme + prefix);
    }
  }

  /** From the initial scanner, the lexeme pending at the end of a fold
      whose every step spells out its character is the input from position
      `n` on, and the events are those of the input up to `n`, after which
      the scanner was back at its initial state. */
  lemma {:induction false} FoldPending(step: (Scanner, char) -> Outcome, input: string) returns (n: nat)
    requires forall sc': Scanner, ch: char :: SpelledOut(sc', ch, step(sc', ch))
    ensures var t := Fold(step, Initial, input);
            && n + |t.scanner.lexeme| == |input|
            && input[n..] == t.scanner.lexeme
            && Fold(step, Initial, input[..n]) == Trace(Initial, t.events)
    decreases |input|
  {
    var t := Fold(step, Initial, input);
    if input == [] {
      n := 0;
      assert input[..0] == input;
    } else {
      var prefix, ch := input[..|input| - 1], input[|input| - 1];
      var before := Fold(step, Initial, prefix);
      var m := FoldPending(step, prefix);
      var o := step(before.scanner, ch);
      assert SpelledOut(before.scanner, ch, o);
      assert t == Trace(o.next, before.events + o.emitted);
      if o.emitted == [] {
        n := m;
        assert t.events == before.events;
        assert input == prefix + [ch];
        SlicesOfSnoc(prefix, ch, m);
      } else {
        n := |input|;
        assert input[..|input|] == input;
      }
    }
  }

  /** The spelling invariant survives one step that spells out its
      character. */
  lemma SpellOneMore(events: seq<Event>, ends0: string, sc: Scanner, ch: char, o: Outcome, consumed: string)
      returns (ends: string)
    requires |ends0| == |events|
    requires forall k :: 0 <= k < |events| && events[k].Token? ==> IsSpace(ends0[k])
    requires Spelled(events, ends0) + sc.lexeme == consumed
    requires SpelledOut(sc, ch, o)
    ensures |ends| == |events + o.emitted|
    ensures forall k :: 0 <= k < |events + o.emitted| && (events + o.emitted)[k].Token? ==> IsSpace(ends[k])
    ensures Spelled(events + o.emitted, ends) + o.next.lexeme == consumed + [ch]
  {
    if o.emitted == [] {
      ends := ends0;
      assert events + o.emitted == events;
    } else {
      var e := o.emitted[0];
      ends := ends0 + [ch];
      assert events + o.emitted == events + [e];
      calc {
        Spelled(events + [e], ends) + o.next.lexeme;
        { assert o.next.lexeme == []; }
        Spelled(events + [e], ends);
        { SpelledAppend(events, ends0, e, ch); }
        Spelled(events, ends0) + Piece(e, ch);
        Spelled(events, ends0) + (sc.lexeme + [ch]);
        { AppendAssoc(Spelled(events, ends0), sc.lexeme, [ch]); }
        consumed + [ch];
      }
      forall k | 0 <= k < |events + [e]| && (events + [e])[k].Token?
        ensures IsSpace(ends[k])
      {
        if k < |events| {
          assert (events + [e])[k] == events[k];
        }
      }
    }
  }

  lemma SlicesOfSnoc(s: string, ch: char, m: nat)
    requires m <= |s|
    ensures (s + [ch])[..m] == s[..m]
    ensures (s + [ch])[m..] == s[m..] + [ch]
  {
  }

  lemma AppendAssoc<T>(a: seq<T>, b: seq<T>, c: seq<T>)
    ensures (a + b) + c == a + (b + c)
  {
  }

  /** One more event adds its piece at the end. */
  lemma SpelledAppend(events: seq<Event>, ends: string, e: Event, end: char)
    requires |ends| == |events|
    ensures Spelled(events + [e], ends + [end]) == Spelled(events, ends) + Piece(e, end)
  {
    assert (events + [e])[..|events|] == events;
    assert (ends + [end])[..|ends|] == ends;
  }

  /** Running over `a + b` is running over `a` and then over `b` from
      where `a` left the scanner. */
  lemma RunFromAppend(sc: Scanner, a: string, b: string)
    ensures var ta := RunFrom(sc, a);
            var tb := RunFrom(ta.scanner, b);
            RunFrom(sc, a + b) == Trace(tb.scanner, ta.events + tb.events)
  {
    FoldAppend(Step, sc, a, b);
  }
}
