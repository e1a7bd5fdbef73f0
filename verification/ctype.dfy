/**
 * The C library character tests the tokenizer relies on, as they behave in
 * the "C" locale on ASCII characters.
 */
module CType {

  /** `isalpha`: the 52 ASCII letters. */
  predicate IsAlpha(c: char) {
    'A' <= c <= 'Z' || 'a' <= c <= 'z'
  }

  /** `isdigit`: the ten decimal digits. */
  predicate IsDigit(c: char) {
    '0' <= c <= '9'
  }

  /** `isspace`: blank, and the five control characters tab, newline,
      vertical tab, form feed and carriage return (codes 9 to 13). */
  predicate IsSpace(c: char) {
    c == ' ' || '\t' <= c <= '\r'
  }

  /** `strchr(s, c) != NULL`. The search includes the string's terminating
      NUL, so the NUL character is always found. */
  predicate StrchrFinds(s: string, c: char) {
    c in s || c == '\0'
  }
}
