/**
 * The static configuration of the finite automaton: its states, the symbol
 * classes of input characters, the literal transition table and the
 * character classifier.
 */
module Automaton {
  import opened CType

  datatype State =
    | Start
    | KeywordOrIdentifier
    | NumericLiteral
    | Operator
    | Punctuation
    | Final
    | Error

  datatype Symbol =
    | Letter
    | Digit
    | Whitespace
    | OperatorSym
    | PunctuationSym
    | Other

  /** The characters searched for an operator symbol. */
  const OperatorChars: string := "+-*/=<>!&|"

  /** The characters searched for a punctuation symbol. */
  const PunctuationChars: string := "(){}[];,."

  /** Classifies one character, trying letter, digit, whitespace, operator
      and punctuation in that order. Every character gets exactly one
      symbol; the order only matters for NUL, which both string searches
      find and which is therefore an operator symbol. */
  function GetSymbol(ch: char): (sym: Symbol)
    ensures sym == Letter <==> IsAlpha(ch)
    ensures sym == Digit <==> IsDigit(ch)
    ensures sym == Whitespace <==> IsSpace(ch)
    ensures sym == OperatorSym <==> ch in OperatorChars || ch == '\0'
    ensures sym == PunctuationSym <==> ch in PunctuationChars
    ensures sym == Other <==>
              !IsAlpha(ch) && !IsDigit(ch) && !IsSpace(ch) && ch != '\0' &&
              ch !in OperatorChars && ch !in PunctuationChars
  {
    if IsAlpha(ch) then Letter
    else if IsDigit(ch) then Digit
    else if IsSpace(ch) then Whitespace
    else if StrchrFinds(OperatorChars, ch) then OperatorSym
    else if StrchrFinds(PunctuationChars, ch) then PunctuationSym
    else Other
  }

  /** The transition table, entry for entry. The keys
      (KeywordOrIdentifier, Whitespace) and (NumericLiteral, Whitespace)
      are listed twice with the same target, so the table has nine rules. */
  const TransitionTable: map<(State, Symbol), State> := map[
    (Start, Letter) := KeywordOrIdentifier,
    (Start, Digit) := NumericLiteral,
    (KeywordOrIdentifier, Letter) := KeywordOrIdentifier,
    (KeywordOrIdentifier, Digit) := KeywordOrIdentifier,
    (NumericLiteral, Digit) := NumericLiteral,
    (KeywordOrIdentifier, Whitespace) := Final,
    (NumericLiteral, Whitespace) := Final,
    (KeywordOrIdentifier, Whitespace) := Final,
    (NumericLiteral, Whitespace) := Final,
    (Operator, Whitespace) := Final,
    (Punctuation, Whitespace) := Final
  ]

  /** The next state for a (state, symbol) pair: the table's rule, or Error
      when it has none. Written as a decision table over the state and the
      symbol; `LookupIsTable` proves it equal to the map lookup. No rule
      leads to Start, Operator or Punctuation, and none leaves Start on
      whitespace, an operator, punctuation or any other character. */
  function Lookup(state: State, sym: Symbol): (next: State)
    ensures next == KeywordOrIdentifier <==>
              (state == Start && sym == Letter) ||
              (state == KeywordOrIdentifier && (sym == Letter || sym == Digit))
    ensures next == NumericLiteral <==>
              (state == Start || state == NumericLiteral) && sym == Digit
    ensures next == Final <==>
              sym == Whitespace &&
              (state == KeywordOrIdentifier || state == NumericLiteral || state == Operator || state == Punctuation)
    ensures next == KeywordOrIdentifier || next == NumericLiteral || next == Final || next == Error
  {
    match (state, sym)
    case (Start, Letter) => KeywordOrIdentifier
    case (Start, Digit) => NumericLiteral
    case (KeywordOrIdentifier, Letter) => KeywordOrIdentifier
    case (KeywordOrIdentifier, Digit) => KeywordOrIdentifier
    case (NumericLiteral, Digit) => NumericLiteral
    case (KeywordOrIdentifier, Whitespace) => Final
    case (NumericLiteral, Whitespace) => Final
    case (Operator, Whitespace) => Final
    case (Punctuation, Whitespace) => Final
    case _ => Error
  }

  /** The lookup agrees with the literal table on every pair, taking Error
      where the table has no entry. */
  lemma LookupIsTable(state: State, sym: Symbol)
    ensures Lookup(state, sym) ==
              if (state, sym) in TransitionTable then TransitionTable[(state, sym)] else Error
  {
  }

  /** The repeated entries have no effect: the table holds exactly nine
      distinct rules. */
  lemma TableHasNineRules()
    ensures TransitionTable.Keys == {
              (Start, Letter), (Start, Digit),
              (KeywordOrIdentifier, Letter), (KeywordOrIdentifier, Digit),
              (NumericLiteral, Digit),
              (KeywordOrIdentifier, Whitespace), (NumericLiteral, Whitespace),
              (Operator, Whitespace), (Punctuation, Whitespace)}
    ensures |TransitionTable| == 9
  {
  }
}
