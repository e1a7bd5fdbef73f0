/**
 * What the scanner does on whole inputs: words followed by whitespace,
 * the lexeme pending at the end of the input, characters with no rule,
 * inputs glued together after a reset, scanning the emitted tokens again,
 * and a few concrete inputs.
 */
module Scenarios {
  import opened CType
  import opened Automaton
  import opened Scanning

  /** An identifier-shaped input leaves the scanner accumulating it, with
      nothing emitted. */
  lemma {:induction false} IdentifierAccumulates(w: string)
    requires IsIdentifierText(w)
    ensures RunFrom(Initial, w) == Trace(Scanner(KeywordOrIdentifier, w), [])
    decreases |w|
  {
    var prefix := w[..|w| - 1];
    if |w| == 1 {
      RunFromOne(Initial, w[0]);
      assert w == [w[0]];
    } else {
      assert IsIdentifierText(prefix) by {
        forall i | 1 <= i < |prefix| ensures IsAlpha(prefix[i]) || IsDigit(prefix[i]) {
          assert prefix[i] == w[i];
        }
      }
      IdentifierAccumulates(prefix);
      assert prefix + [w[|w| - 1]] == w;
    }
  }

  /** A run of digits leaves the scanner accumulating a numeric literal,
      with nothing emitted. */
  lemma {:induction false} DigitsAccumulate(d: string)
    requires IsDigits(d)
    ensures RunFrom(Initial, d) == Trace(Scanner(NumericLiteral, d), [])
    decreases |d|
  {
    var prefix := d[..|d| - 1];
    if |d| == 1 {
      RunFromOne(Initial, d[0]);
      assert d == [d[0]];
    } else {
      assert IsDigits(prefix) by {
        forall i | 0 <= i < |prefix| ensures IsDigit(prefix[i]) {
          assert prefix[i] == d[i];
        }
      }
      DigitsAccumulate(prefix);
      assert prefix + [d[|d| - 1]] == d;
    }
  }

  /** A letter followed by letters and digits, then one whitespace
      character, yields exactly one token with that text: a keyword for a
      reserved word, an identifier otherwise. */
  lemma ScanWord(w: string, c: char)
    requires IsIdentifierText(w) && IsSpace(c)
    ensures Scan(w + [c]) == [Token(if w in Keywords then Keyword else Identifier, w)]
    ensures RunFrom(Initial, w + [c]).scanner == Initial
  {
    IdentifierAccumulates(w);
    assert (w + [c])[..|w + [c]| - 1] == w;
  }

  /** Digits followed by one whitespace character yield exactly one numeric
      literal token with that text. */
  lemma ScanNumber(d: string, c: char)
    requires IsDigits(d) && IsSpace(c)
    ensures Scan(d + [c]) == [Token(Numeric, d)]
    ensures RunFrom(Initial, d + [c]).scanner == Initial
  {
    DigitsAccumulate(d);
    assert (d + [c])[..|d + [c]| - 1] == d;
    DigitsAreNoKeyword(d);
  }

  /** At Start only a letter or a digit has a rule: any other character,
      whitespace, operators and punctuation included, is reported on its
      own. */
  lemma UnrecognizedAtStart(c: char)
    requires !IsAlpha(c) && !IsDigit(c)
    ensures Scan([c]) == [Diagnostic([c])]
    ensures RunFrom(Initial, [c]).scanner == Initial
  {
    RunFromOne(Initial, c);
    assert Lookup(Start, GetSymbol(c)) == Error;
    assert "" + [c] == [c];
  }

  /** A character that is neither a letter, a digit nor whitespace ends a
      word with a report of the word and that character. */
  lemma ReportedAfterWord(w: string, c: char)
    requires IsIdentifierText(w)
    requires !IsAlpha(c) && !IsDigit(c) && !IsSpace(c)
    ensures Scan(w + [c]) == [Diagnostic(w + [c])]
    ensures RunFrom(Initial, w + [c]).scanner == Initial
  {
    IdentifierAccumulates(w);
    assert (w + [c])[..|w + [c]| - 1] == w;
  }

  /** Once an input has left the scanner back at Start, what follows is
      scanned as if it were a fresh input. */
  lemma ScanAfterReset(p: string, q: string)
    requires RunFrom(Initial, p).scanner == Initial
    ensures Scan(p + q) == Scan(p) + Scan(q)
    ensures RunFrom(Initial, p + q).scanner == RunFrom(Initial, q).scanner
  {
    RunFromAppend(Initial, p, q);
  }

  /** The token events of `events`, in order; reports are left out. */
  function TokensOf(events: seq<Event>): (ts: seq<Event>)
    ensures |ts| <= |events|
    ensures forall k :: 0 <= k < |ts| ==> ts[k].Token? && ts[k] in events
  {
    if events == [] then []
    else
      var last := events[|events| - 1];
      var rest := TokensOf(events[..|events| - 1]);
      if last.Token? then rest + [last] else rest
  }

  /** The texts of the tokens `ts` written back out in order, each
      followed by the whitespace character `c`. */
  function Respelled(ts: seq<Event>, c: char): string {
    if ts == [] then [] else Piece(ts[0], c) + Respelled(ts[1..], c)
  }

  /** Writing out a token list after `p` is writing out its first token,
      then the others. */
  lemma RespelledFirst(p: string, ts: seq<Event>, c: char)
    requires ts != [] && ts[0].Token?
    ensures p + Respelled(ts, c) == (p + ts[0].text + [c]) + Respelled(ts[1..], c)
  {
    AppendAssoc(p, ts[0].text + [c], Respelled(ts[1..], c));
    AppendAssoc(p, ts[0].text, [c]);
  }

  /** After a reset, the text of a well-formed token and one whitespace
      character scan to that very token and reset again. */
  lemma TokenAfterReset(p: string, e: Event, c: char)
    requires RunFrom(Initial, p).scanner == Initial
    requires IsSpace(c) && e.Token? && WellFormedEvent(e)
    ensures Scan(p + e.text + [c]) == Scan(p) + [e]
    ensures RunFrom(Initial, p + e.text + [c]).scanner == Initial
  {
    if e.kind == Numeric {
      NumberAfterReset(p, e.text, c);
    } else {
      WordAfterReset(p, e.text, c);
    }
  }

  /** After a reset, well-formed tokens written back out scan to exactly
      those tokens, in order, and leave the scanner at Start. */
  lemma {:induction false} RescanTokens(p: string, ts: seq<Event>, c: char)
    requires RunFrom(Initial, p).scanner == Initial
    requires IsSpace(c)
    requires forall k :: 0 <= k < |ts| ==> ts[k].Token? && WellFormedEvent(ts[k])
    ensures Scan(p + Respelled(ts, c)) == Scan(p) + ts
    ensures RunFrom(Initial, p + Respelled(ts, c)).scanner == Initial
    decreases |ts|
  {
    if ts == [] {
      assert p + Respelled(ts, c) == p;
    } else {
      var e, rest := ts[0], ts[1..];
      var q := p + e.text + [c];
      assert ts == [e] + rest;
      RespelledFirst(p, ts, c);
      TokenAfterReset(p, e, c);
      RescanTokens(q, rest, c);
      AppendAssoc(Scan(p), [e], rest);
    }
  }

  /** Scanning the emitted token texts again, each followed by one
      whitespace character, gives back exactly the tokens of the first
      scan, in order. Plain concatenation without the whitespace would not:
      a token is only emitted when whitespace follows it. */
  lemma RoundTrip(input: string, c: char)
    requires IsSpace(c)
    ensures var ts := TokensOf(Scan(input));
            Scan(Respelled(ts, c)) == ts
  {
    var events := Scan(input);
    RunPreservesWellFormed(Initial, input);
    var ts := TokensOf(events);
    forall k | 0 <= k < |ts| ensures ts[k].Token? && WellFormedEvent(ts[k]) {
      var j :| 0 <= j < |events| && events[j] == ts[k];
    }
    assert RunFrom(Initial, []) == Trace(Initial, []);
    RescanTokens([], ts, c);
    assert [] + Respelled(ts, c) == Respelled(ts, c);
  }

  /** A word and one whitespace character after a reset add one token and
      leave the scanner at Start again. */
  lemma WordAfterReset(p: string, w: string, c: char)
    requires RunFrom(Initial, p).scanner == Initial
    requires IsIdentifierText(w) && IsSpace(c)
    ensures Scan(p + w + [c]) == Scan(p) + [Token(if w in Keywords then Keyword else Identifier, w)]
    ensures RunFrom(Initial, p + w + [c]).scanner == Initial
  {
    ScanWord(w, c);
    ScanAfterReset(p, w + [c]);
    assert p + w + [c] == p + (w + [c]);
  }

  /** Digits and one whitespace character after a reset add one numeric
      literal token and leave the scanner at Start again. */
  lemma NumberAfterReset(p: string, d: string, c: char)
    requires RunFrom(Initial, p).scanner == Initial
    requires IsDigits(d) && IsSpace(c)
    ensures Scan(p + d + [c]) == Scan(p) + [Token(Numeric, d)]
    ensures RunFrom(Initial, p + d + [c]).scanner == Initial
  {
    ScanNumber(d, c);
    ScanAfterReset(p, d + [c]);
    assert p + d + [c] == p + (d + [c]);
  }

  /** A character with no rule at Start, met after a reset, is reported
      alone and leaves the scanner at Start. */
  lemma ReportedAfterReset(p: string, c: char)
    requires RunFrom(Initial, p).scanner == Initial
    requires !IsAlpha(c) && !IsDigit(c)
    ensures Scan(p + [c]) == Scan(p) + [Diagnostic([c])]
    ensures RunFrom(Initial, p + [c]).scanner == Initial
  {
    UnrecognizedAtStart(c);
    ScanAfterReset(p, [c]);
  }

  /** A word or number at the very end of the input, with no whitespace
      after it, produces no event: appending it to an input that left the
      scanner at Start changes nothing in the output. */
  lemma TrailingLexemeDropped(p: string, w: string)
    requires RunFrom(Initial, p).scanner == Initial
    requires IsIdentifierText(w) || IsDigits(w)
    ensures Scan(p + w) == Scan(p)
  {
    RunFromAppend(Initial, p, w);
    if IsIdentifierText(w) {
      IdentifierAccumulates(w);
    } else {
      DigitsAccumulate(w);
    }
  }

  /** Whatever the input, the lexeme still pending at its end is its last
      characters, and it produces no event: the events are those of the
      input without it, after which the scanner was at Start. The pending
      lexeme is empty, a word or a run of digits. */
  lemma PendingLexemeUnreported(input: string)
    ensures var t := RunFrom(Initial, input);
            var n := |input| - |t.scanner.lexeme|;
            && 0 <= n
            && input[n..] == t.scanner.lexeme
            && RunFrom(Initial, input[..n]) == Trace(Initial, t.events)
            && (t.scanner.lexeme == [] || IsIdentifierText(t.scanner.lexeme) || IsDigits(t.scanner.lexeme))
  {
    StepSpellsOut();
    var n := FoldPending(Step, input);
    RunPreservesWellFormed(Initial, input);
  }

  /** The empty input gives no events. `"var x"` gives only the keyword:
      the trailing `x` is dropped. */
  lemma VarWithoutTrailingSpace()
    ensures Scan("") == []
    ensures Scan("var x") == [Token(Keyword, "var")]
  {
    ScanWord("var", ' ');
    assert "var x" == ("var" + [' ']) + "x";
    TrailingLexemeDropped("var" + [' '], "x");
  }

  /** `"=="` gives two reports, one per `=`; there is no operator token. */
  lemma DoubleEquals()
    ensures Scan("==") == [Diagnostic("="), Diagnostic("=")]
  {
    UnrecognizedAtStart('=');
    ReportedAfterReset("=", '=');
    assert "=" + ['='] == "==";
  }

  /** The character with no rule is consumed with the report: in `"a+b "`
      the report is `a+` and scanning resumes with `b`. */
  lemma ErrorCharacterConsumed(input: string)
    requires input == "a+b "
    ensures Scan(input) == [Diagnostic("a+"), Token(Identifier, "b")]
  {
    var a, b := "a", "b";
    assert IsIdentifierText(a) && IsIdentifierText(b);
    ReportedAfterWord(a, '+');
    assert a + ['+'] == "a+";
    WordAfterReset(a + ['+'], b, ' ');
    assert a + ['+'] + b + [' '] == input;
  }

  /** A declaration `<keyword> <name> <op> <digits> ` with single blanks:
      the keyword, the name and the number become tokens, while the
      operator and the blank after it, both met at Start, are each
      reported. */
  lemma Declaration(keyword: string, name: string, op: char, digits: string, blank: char)
    requires keyword in Keywords && IsIdentifierText(keyword)
    requires IsIdentifierText(name) && name !in Keywords
    requires !IsAlpha(op) && !IsDigit(op)
    requires IsDigits(digits) && IsSpace(blank)
    ensures Scan(keyword + [blank] + name + [blank] + [op] + [blank] + digits + [blank]) ==
              [Token(Keyword, keyword), Token(Identifier, name),
               Diagnostic([op]), Diagnostic([blank]), Token(Numeric, digits)]
  {
    var p1 := keyword + [blank];
    ScanWord(keyword, blank);
    var p2 := p1 + name + [blank];
    WordAfterReset(p1, name, blank);
    var p3 := p2 + [op];
    ReportedAfterReset(p2, op);
    var p4 := p3 + [blank];
    ReportedAfterReset(p3, blank);
    NumberAfterReset(p4, digits, blank);
  }

  /** `"var x = 10 "`: the operator and the blank that follows it are
      reported, the words and the number are tokens. (The input is a
      parameter so that the solver does not unfold the scan of a literal
      on its own.) */
  lemma VarAssignment(input: string)
    requires input == "var x = 10 "
    ensures Scan(input) ==
              [Token(Keyword, "var"), Token(Identifier, "x"),
               Diagnostic("="), Diagnostic(" "), Token(Numeric, "10")]
  {
    Declaration("var", "x", '=', "10", ' ');
    assert input == "var" + [' '] + "x" + [' '] + ['='] + [' '] + "10" + [' '];
  }
}
