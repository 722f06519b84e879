/** Tokens, their identifiers and the classes an identifier belongs to. */
module Tokens {
  import opened Utf8

  datatype Version = Auto | V1 | V2

  /** Token kinds, followed by the classes that table entries may name instead of a kind. */
  datatype TokenID =
    | Unknown | Newline | Whitespace | MultiLineComment | SingleLineComment | TokenComment | TypeSpec
    | Decimal | Hexadecimal | Octal | Binary | Boolean | Null | BareIdentifier | SuffixedDecimal
    | RawString | QuotedString | ExpressionString | BraceOpen | BraceClose | ParensOpen | ParensClose
    | Equals | Semicolon | Continuation | EOF | Keyword
    | ClassWhitespace | ClassValue | ClassIdentifier | ClassNonStringValue | ClassNumber | ClassString
    | ClassTerminator | ClassEndOfLine | ClassComment

  /** The classes of an identifier, in the order they are tried. */
  function Classes(id: TokenID): seq<TokenID> {
    match id
    case Newline => [ClassTerminator, ClassWhitespace, ClassEndOfLine]
    case Whitespace => [ClassWhitespace]
    case MultiLineComment => [ClassComment]
    case SingleLineComment => [ClassComment]
    case Decimal => [ClassNumber, ClassValue, ClassNonStringValue]
    case Hexadecimal => [ClassNumber, ClassValue, ClassNonStringValue]
    case Octal => [ClassNumber, ClassValue, ClassNonStringValue]
    case Binary => [ClassNumber, ClassValue, ClassNonStringValue]
    case SuffixedDecimal => [ClassNumber, ClassValue, ClassNonStringValue]
    case Boolean => [ClassValue, ClassNonStringValue]
    case Null => [ClassValue, ClassNonStringValue]
    case BareIdentifier => [ClassValue, ClassIdentifier]
    case RawString => [ClassValue, ClassString, ClassIdentifier]
    case QuotedString => [ClassValue, ClassString, ClassIdentifier]
    case ExpressionString => [ClassValue, ClassString]
    case Semicolon => [ClassTerminator]
    case EOF => [ClassTerminator, ClassEndOfLine]
    case Keyword => [ClassValue, ClassNonStringValue]
    case _ => []
  }

  /** A kind a scanner can return, as opposed to a class. */
  predicate IsKind(id: TokenID) {
    && !id.ClassWhitespace? && !id.ClassValue? && !id.ClassIdentifier? && !id.ClassNonStringValue?
    && !id.ClassNumber? && !id.ClassString? && !id.ClassTerminator? && !id.ClassEndOfLine? && !id.ClassComment?
  }

  /** Line and column are only ever compared, to decide whether two tokens touch. */
  datatype Token = Token(id: TokenID, data: Bytes, line: int, column: int) {
    predicate Valid() { !id.Unknown? }
  }

  /** A cleared token. */
  const NO_TOKEN := Token(Unknown, [], 0, 0)

  predicate Adjacent(prev: Token, curr: Token) {
    prev.line == curr.line && curr.column == prev.column + |prev.data|
  }

  predicate ScalarToken(id: TokenID) {
    id in {BareIdentifier, RawString, QuotedString, Decimal, Hexadecimal, Octal, Binary, SuffixedDecimal,
           Boolean, Null, Keyword}
  }

  predicate ValueLike(id: TokenID) {
    ScalarToken(id) || id.BraceClose?
  }

  /** Two touching tokens that version 2 wants separated. */
  predicate RequiresV2Separation(prev: Token, curr: Token) {
    && Adjacent(prev, curr)
    && ((ValueLike(prev.id) && ScalarToken(curr.id)) || (prev.id.ParensClose? && curr.id.TokenComment?))
  }

  predicate Trivia(id: TokenID) {
    id.Whitespace? || id.Newline? || id.SingleLineComment? || id.MultiLineComment?
  }
}
