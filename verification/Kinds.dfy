/** The kinds of the tokens a scan returns. */
module Kinds {
  import opened Utf8
  import opened Tokens
  import opened Lookahead
  import opened Tokenize

  /** A kind the parser accepts tokens of. */
  predicate Scannable(id: TokenID) { IsKind(id) && !id.Unknown? }

  predicate KindOk(l: Lexeme) { l.Lexeme? ==> Scannable(l.id) }

  lemma IdentifierKind(s: Bytes, v2: bool)
    ensures KindOk(Identifier(s, v2))
  {
    hide Peek, While, RawScan, Quote, PeekTwo;
  }

  lemma HashKind(s: Bytes)
    requires Next(s, HASH)
    ensures KindOk(HashToken(s))
  {
    hide Decode, Word, HashString, Thrice, PeekTwo;
  }

  lemma OtherKind(s: Bytes, v2: bool)
    requires Peek(s).Rune?
    ensures KindOk(OtherToken(s, v2))
  {
    hide Decode, Identifier, HashToken, DecimalNumber, NumericBase, Comment, LineComment, PeekTwo;
    IdentifierKind(s, v2);
    if Next(s, HASH) {
      HashKind(s);
    }
  }

  /** Every token the scanner returns has a kind the parser accepts. */
  lemma TokenKind(s: Bytes, v2: bool, start: bool)
    ensures KindOk(NextToken(s, v2, start))
  {
    hide Decode, OtherToken, RunLength;
    if Peek(s).Rune? {
      OtherKind(s, v2);
    }
  }
}
