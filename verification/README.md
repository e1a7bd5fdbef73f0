# Finite-automaton tokenizer for a JavaScript-like language

This project models, in Dafny, the automaton-based lexical analyser of
`automata.cpp`. The analyser reads a source text one character at a time.
Each character is classified into a symbol class: letter, digit, whitespace,
operator character, punctuation character or other. A literal transition
table then gives the next state of the automaton for the current state and
that class. The scanner keeps the current state and the lexeme accumulated
so far. On a transition to FINAL it writes the lexeme as a Keyword, Numeric
Literal or Identifier token. On a pair with no transition it writes an
"Unrecognized sequence" report made of the lexeme and the offending
character, then restarts. Otherwise it appends the character and moves to
the next state.

The printed lines are modelled as one ordered list of events,
`Token(kind, text)` or `Diagnostic(text)`.

Modules:

- `CType` (`ctype.dfy`): the C library tests `isalpha`, `isdigit`, `isspace` in
  the "C" locale, and `strchr` as a membership test. The `strchr` search
  includes the terminating NUL.
- `Automaton` (`automaton.dfy`): the `State` and `Symbol` enumerations, the
  transition table as a `map` literal (with the source's two repeated
  entries), the classifier `GetSymbol`, and the lookup `Lookup`. `Lookup`
  is written as a decision table and proved equal to the map's lookup with
  Error as the default.
- `Scanning` (`scanning.dfy`): events, keyword set, token classification, and
  the scanner as functions. `Step` is one loop iteration. `RunFrom` runs a
  whole input as a left fold of `Step`, and `Scan` gives the events of a
  scan. It also holds the
  scanner invariant and the lemmas about steps and runs.
- `Lexer` (`lexer.dfy`): `LexAutomataAnalyze`, the scanning loop as an
  imperative method over two local variables. It is proved to produce
  exactly `Scan(input)`.
- `Scenarios` (`scenarios.dfy`): whole-input behaviour. This covers words
  followed by whitespace, the lexeme still pending at the end of any input,
  characters with no rule at Start, scanning the emitted tokens again, and
  concrete inputs.

The model follows the code as written. A richer automaton is sometimes
described for this program, with quoted strings, comments, single-character
operator and punctuation tokens, an end-of-input flush, and silent discarding
of an error character when nothing is buffered. The code has none of these.
The model therefore proves the code's actual behaviour:

- at Start, whitespace, operator and punctuation characters are each reported
  as an unrecognized sequence (`UnrecognizedAtStart`);
- an error is reported even when the buffered lexeme is empty
  (`StepReportsUnrecognized`);
- a lexeme still pending when the input ends is dropped, so `"var x"` yields
  only the keyword `var` (`TrailingLexemeDropped`, `VarWithoutTrailingSpace`);
- `"=="` gives two reports, not an operator token (`DoubleEquals`);
- `"var x = 10 "` reports `=` and the blank after it (`VarAssignment`).

## Model

| member | source | states |
|---|---|---|
| `Automaton.GetSymbol` | automata.cpp:58-65 | every character gets exactly one symbol; each symbol is characterised by an if-and-only-if over the character classes; NUL is an operator symbol, because `strchr` finds the terminator |
| `Automaton.Lookup` | automata.cpp:44-56 | a pair leads to KeywordOrIdentifier, NumericLiteral or Final exactly for the listed rules; every other pair leads to Error, the default applied at line 76; no rule leads to Start, Operator or Punctuation |
| `Automaton.LookupIsTable` | automata.cpp:74-76 | the decision table agrees on every pair with the literal table's entry, or with Error where the table has none |
| `Automaton.TableHasNineRules` | automata.cpp:44-56 | the table's keys are exactly the nine listed pairs; the repeated entries add nothing |
| `Scanning.Step` | automata.cpp:72-99 | a character emits at most one event; Final and Error are never stored; no event is emitted exactly when the character is appended to the lexeme; after an event the scanner is at Start with an empty lexeme |
| `Scanning.FoldAppend` | automata.cpp:71-100 | a left-to-right pass over `a + b` is the pass over `a` followed by the pass over `b` from where `a` left off |
| `Scanning.RunFrom` | automata.cpp:71-100 | a run emits no more events than it reads characters |
| `Scanning.RunBound` | automata.cpp:71-100 | the pass of `Step` over an input emits at most one event per character |
| `Scanning.DigitsAreNoKeyword` | automata.cpp:80-86 | the keyword test comes before the state test, but it never claims a numeric lexeme |
| `Scanning.RunFromOne` | automata.cpp:71-99 | a one-character input is one step |
| `Scanning.StepPreservesWellFormed` | automata.cpp:78-99 | the loop invariant holds after each step: the state is Start, KeywordOrIdentifier or NumericLiteral; the lexeme is empty exactly in Start; in KeywordOrIdentifier it is a letter then letters and digits; in NumericLiteral it is all digits; emitted events are well formed |
| `Scanning.StepEmitsToken` | automata.cpp:78-91 | a token is emitted if and only if whitespace follows a non-empty lexeme; its text is the lexeme without the whitespace; its kind is Keyword if and only if the lexeme is reserved, otherwise Numeric if and only if the state before was NumericLiteral, otherwise Identifier; the scanner returns to Start |
| `Scanning.StepReportsUnrecognized` | automata.cpp:92-95 | a report is emitted if and only if the character has no rule in the current state; it carries the lexeme, even an empty one, plus the character; the character is consumed and the scanner restarts at Start |
| `Scanning.RunPreservesWellFormed` | automata.cpp:71-100 | over a whole input the invariant is kept; every event is a keyword, a non-keyword identifier, a digit run, or a report of a well-shaped lexeme plus one character |
| `Scanning.StepSpellsOut` | automata.cpp:78-98 | every step either appends the character to the lexeme and emits nothing, or emits exactly one event and restarts at Start with an empty lexeme; a token's text is the lexeme and the character is whitespace, a report's text is the lexeme followed by the character |
| `Scanning.RunAccountsForEveryCharacter` | automata.cpp:71-101 | there are whitespace characters, one per token, such that the events written back out in order, each token's text followed by its whitespace and each report's text as is, and then the pending lexeme, are exactly the starting lexeme followed by the input; no character is lost, added or reordered |
| `Scanning.FoldEnds` | automata.cpp:71-100 | for any step that spells out its character, a left-to-right pass yields the ending characters of that spelling |
| `Scanning.SpellOneMore` | automata.cpp:78-98 | the spelling of the events plus the pending lexeme grows by exactly the character read at each step |
| `Scanning.FoldPending` | automata.cpp:71-101 | for any step that spells out its character, the lexeme pending at the end is the input's tail from some position `n`, and the pass up to `n` gives all the events and ends at the initial scanner |
| `Scanning.RunFromAppend` | automata.cpp:71-100 | scanning `a + b` equals scanning `a`, then `b` from the scanner `a` left behind |
| `Lexer.LexAutomataAnalyze` | automata.cpp:67-101 | the loop produces exactly the events of `Scan(input)`, at most one per character, each well formed |
| `Scenarios.IdentifierAccumulates` | automata.cpp:45-48 | a letter followed by letters and digits is accumulated in KeywordOrIdentifier with no event |
| `Scenarios.DigitsAccumulate` | automata.cpp:46-49 | a run of digits is accumulated in NumericLiteral with no event |
| `Scenarios.ScanWord` | automata.cpp:80-91 | a word then one whitespace character gives exactly one token with the word's text: Keyword for a reserved word, Identifier otherwise |
| `Scenarios.ScanNumber` | automata.cpp:85-86 | digits then one whitespace character give exactly one Numeric Literal token with that text |
| `Scenarios.UnrecognizedAtStart` | automata.cpp:92-95 | at Start any character other than a letter or digit, whitespace included, is reported on its own |
| `Scenarios.ReportedAfterWord` | automata.cpp:92-95 | a character that is not a letter, digit or whitespace ends a word with one report of the word plus that character |
| `Scenarios.ScanAfterReset` | automata.cpp:90-91 | once the scanner is back at Start, the rest of the input is scanned as a fresh input |
| `Scenarios.TokensOf` | automata.cpp:78-91 | the token events of a scan, in order, reports left out: no more than there are events, and each one a token of them |
| `Scenarios.RespelledFirst` | automata.cpp:78-91 | writing a token list back out is writing its first token's text and whitespace, then the rest |
| `Scenarios.TokenAfterReset` | automata.cpp:80-91 | after a reset, the text of any well-formed token followed by whitespace scans to that very token and resets again |
| `Scenarios.RescanTokens` | automata.cpp:71-101 | after a reset, well-formed tokens written back out, each text followed by the whitespace character `c`, scan to exactly those tokens in order and leave the scanner at Start |
| `Scenarios.RoundTrip` | automata.cpp:67-101 | scanning the token texts of any scan again, each followed by one whitespace character, gives exactly the token events of the first scan, in order |
| `Scenarios.WordAfterReset` | automata.cpp:80-91 | after a reset, a word and a whitespace character add exactly one token and reset again |
| `Scenarios.NumberAfterReset` | automata.cpp:85-91 | after a reset, digits and a whitespace character add exactly one Numeric Literal token and reset again |
| `Scenarios.ReportedAfterReset` | automata.cpp:92-95 | after a reset, a character other than a letter or digit adds exactly one report of itself and resets again |
| `Scenarios.PendingLexemeUnreported` | automata.cpp:71-101 | for every input, the lexeme pending at the end is the input's last characters, it produces no event, and the events are those of the input without it, after which the scanner was at Start; the pending lexeme is empty, a word or a run of digits |
| `Scenarios.TrailingLexemeDropped` | automata.cpp:71-101 | a word or number at the end of the input, with no whitespace after it, adds no event |
| `Scenarios.VarWithoutTrailingSpace` | automata.cpp:67-101 | the empty input gives no events; `"var x"` gives only the keyword `var` |
| `Scenarios.DoubleEquals` | automata.cpp:62 | `"=="` gives two reports of `=` and no operator token |
| `Scenarios.ErrorCharacterConsumed` | automata.cpp:92-98 | `"a+b "` reports `a+`, then scans `b` afresh as an identifier |
| `Scenarios.Declaration` | automata.cpp:67-101 | `<keyword> <name> <op> <digits> ` gives keyword, identifier, a report of the operator, a report of the blank, and a numeric literal |
| `Scenarios.VarAssignment` | automata.cpp:67-101 | `"var x = 10 "` gives `var` (Keyword), `x` (Identifier), reports of `=` and of the blank, then `10` (Numeric Literal) |

## Left out

- Reading the input file and `main` (automata.cpp:103-115) are left out: a fixed path, `ifstream` and the exit codes. The input is a parameter.
- Output formatting is left out: the `" - "` separator, the `"Unrecognized sequence: "` prefix and newlines. Tokens go to standard output and reports to standard error. The model keeps them as one ordered sequence, and the interleaving the two streams show on a terminal is not modelled.
- The `std::hash<Transition>` specialisation and `Transition::operator==` (automata.cpp:26-42) only serve the `unordered_map`. The table is a Dafny `map` keyed by a (state, symbol) pair.
- `Automaton.GetSymbol`: only ASCII input is modelled faithfully. The source loops over the bytes of a `std::string`, while a Dafny `char` is a whole character. A non-ASCII character is two to four UTF-8 bytes in the source's input, and at Start each of those bytes is reported on its own. The model classifies the character Other once. So for non-ASCII input the events differ in number and text: for `"aé"` the source reports `a` plus the first byte of `é`, then the second byte alone, and the model reports `aé` once. The source also passes `char` values that may be negative to `isalpha`, which is undefined, and locale-dependent classification is not modelled.
- `Scenarios.RoundTrip`: re-scanning is stated with one whitespace character after each token text. Plain concatenation of the token texts does not give the tokens back, because a token is only emitted when whitespace follows it: `"var x "` gives the tokens `var` and `x`, and `"varx"` gives no token at all.
- The Operator and Punctuation states and their whitespace rules are in the table, but no rule ever enters them. The model keeps them, and `Scanning.ClassifyToken` would call such a token an Identifier, but that case is unreachable.
- The regular-expression tokenizer `lexRegexAnalyze` in main.cpp and its `main` are an alternative tokenizer built on `std::regex`. They are not part of this model.
- input.js is sample input and is not part of this model.
- The richer automaton design is not modelled, because the code does not implement it. That design has string and comment states, operator and punctuation tokens, an end-of-input flush, and silent dropping of an error character with an empty buffer.
