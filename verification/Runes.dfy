/** Character classes of the tokenizer. */
module Runes {
  import opened Utf8

  predicate IsDisallowed(c: rune) {
    || c == 0x7F || c == 0x200E || c == 0x200F || 0x202A <= c <= 0x202E || 0x2066 <= c <= 0x2069
  }

  predicate IsWhiteSpace(c: rune) {
    || c == 0x09 || c == 0x20 || c == 0xA0 || c == 0x1680 || 0x2000 <= c <= 0x200A || c == 0x202F || c == 0x205F
    || c == 0x3000
  }

  predicate IsNewline(c: rune) {
    c == 0x0D || c == 0x0A || c == 0x0B || c == 0x0C || c == 0x85 || c == 0x2028 || c == 0x2029
  }

  predicate IsDigit(c: rune) { '0' as int <= c <= '9' as int }

  predicate IsSeparator(c: rune) { IsWhiteSpace(c) || IsNewline(c) || c == ';' as int }

  /** Punctuation that ends a bare identifier in either version. */
  predicate IsPunctuation(c: rune) {
    || c == '{' as int || c == '}' as int || c == ';' as int || c == '[' as int || c == ']' as int
    || c == '=' as int || c == '(' as int || c == ')' as int || c == '/' as int || c == '\\' as int || c == '\"' as int
  }

  /** isBareIdentifierCharVersion without relaxed flags. */
  predicate IsIdentifierChar(c: rune, first: bool, v2: bool) {
    && !IsNewline(c) && !IsWhiteSpace(c) && 0x20 <= c <= 0x10FFFF && !IsDisallowed(c)
    && !IsPunctuation(c) && !(first && IsDigit(c))
    && (if v2 then c != '#' as int else c != '<' as int && c != '>' as int && c != ',' as int)
  }

  predicate AllIdentifierChars(s: Bytes, first: bool, v2: bool)
    decreases |s|
  {
    s == [] || (IsIdentifierChar(Decode(s).r, first, v2) && AllIdentifierChars(s[Decode(s).size..], false, v2))
  }

  /** IsBareIdentifierVersion */
  predicate IsBareIdentifier(s: Bytes, v2: bool) {
    s != [] && AllIdentifierChars(s, true, v2)
  }
}
