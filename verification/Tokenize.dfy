/**
  What the tokenizer reads, as functions of the unread input alone: the simple scanner over one big
  slice that the buffered one is measured against.
 */
module Tokenize {
  import opened Wrappers
  import opened Utf8
  import opened Tokens
  import opened Lookahead
  import opened Runes
  import Quoted

  /** How many bytes a reader consumes, or why it fails. */
  datatype Scan = Got(n: nat) | Failed(e: ScanError)

  const HASH: rune := '#' as int
  const QUOTE: rune := '\"' as int
  const BACKTICK: rune := '`' as int
  const BACKSLASH: rune := '\\' as int
  const SLASH: rune := '/' as int
  const STAR: rune := '*' as int
  const UNDERSCORE: rune := '_' as int
  const BOM: rune := 0xFEFF

  function Plus(k: nat, r: Scan): (q: Scan)
    ensures r.Got? <==> q.Got?
    ensures r.Failed? ==> q == r
    ensures r.Got? ==> q.n == k + r.n
  {
    if r.Got? then Got(k + r.n) else r
  }

  /** An end of input inside a token. */
  function Inside(e: ScanError): ScanError {
    if e.AtEnd? then UnexpectedEOF else e
  }

  predicate Next(s: Bytes, c: rune) { Peek(s).Rune? && Peek(s).c == c }

  // ---------- Runs of runes ----------

  /** Runes accepted one after the other, the first of them being number i. */
  function RunLength(s: Bytes, i: nat, valid: (nat, rune) -> bool): (n: nat)
    ensures n <= |s|
    decreases |s|
  {
    var p := Peek(s);
    if p.Rune? && valid(i, p.c) then p.size + RunLength(s[p.size..], i + 1, valid) else 0
  }

  /** readWhile */
  function While(s: Bytes, valid: (nat, rune) -> bool, minLength: nat): (r: Scan)
    ensures r.Got? ==> 1 <= r.n <= |s| && r.n >= minLength
    ensures r.Failed? ==> !r.e.AtEnd?
  {
    var n := RunLength(s, 0, valid);
    var stop := Peek(s[n..]);
    if stop.Bad? && !stop.e.AtEnd? then Failed(stop.e)
    else if n == 0 then Failed(BadCharacter)
    else if n < minLength then Failed(EndOfToken)
    else Got(n)
  }

  function White(): (nat, rune) -> bool { (i, c) => IsWhiteSpace(c) }

  function NotNewline(): (nat, rune) -> bool { (i, c) => !IsNewline(c) }

  /** readSingleLineComment */
  function LineComment(s: Bytes): (r: Scan)
    ensures r.Got? ==> r.n <= |s|
    ensures r.Failed? ==> !r.e.AtEnd?
  {
    var n := RunLength(s, 0, NotNewline());
    var stop := Peek(s[n..]);
    if stop.Bad? && !stop.e.AtEnd? then Failed(stop.e) else Got(n)
  }

  /** readMultiLineComment with depth comments open. */
  function Comment(s: Bytes, depth: int): (r: Scan)
    ensures r.Got? ==> 2 <= r.n <= |s|
    ensures r.Failed? ==> !r.e.AtEnd?
    decreases |s|
  {
    var p := Peek(s);
    if p.Bad? then Failed(Inside(p.e))
    else
      var t := s[p.size..];
      if p.c == STAR && Next(t, SLASH) then
        if depth == 1 then Got(2) else Plus(2, Comment(t[1..], depth - 1))
      else if p.c == SLASH && Next(t, STAR) then Plus(2, Comment(t[1..], depth + 1))
      else Plus(p.size, Comment(t, depth))
  }

  // ---------- Raw strings ----------

  /** Number signs at the front, at most h. */
  function HashRun(s: Bytes, h: nat): (n: nat)
    ensures n <= h && n <= |s|
    decreases h
  {
    if h > 0 && Next(s, HASH) then 1 + HashRun(s[1..], h - 1) else 0
  }

  /** readRawStringContent: up to and including the closing quote and its h number signs. */
  function RawContent(s: Bytes, h: nat, v2: bool): (r: Scan)
    ensures r.Got? ==> 1 + h <= r.n <= |s|
    ensures r.Failed? ==> !r.e.AtEnd?
    decreases |s|
  {
    var p := Peek(s);
    if p.Bad? then Failed(Inside(p.e))
    else
      var t := s[p.size..];
      if p.c == QUOTE then
        var k := HashRun(t, h);
        if k == h then Got(1 + h) else Plus(1 + k, RawContent(t[k..], h, v2))
      else if v2 && IsNewline(p.c) then Failed(BadCharacter)
      else Plus(p.size, RawContent(t, h, v2))
  }

  /** The hashes and the opening quote of a version 1 raw string, h hashes already seen, then the rest. */
  function RawFrom(s: Bytes, h: nat, v2: bool): (r: Scan)
    ensures r.Got? ==> 1 <= r.n <= |s|
    ensures r.Failed? ==> !r.e.AtEnd?
    decreases |s|
  {
    var p := Peek(s);
    if p.Bad? then Failed(Inside(p.e))
    else if p.c == QUOTE then Plus(1, RawContent(s[1..], h, v2))
    else if p.c == HASH then Plus(1, RawFrom(s[1..], h + 1, v2))
    else Failed(BadCharacter)
  }

  /** readRawString */
  function RawScan(s: Bytes, v2: bool): (r: Scan)
    ensures r.Got? ==> 1 <= r.n <= |s|
    ensures r.Failed? ==> !r.e.AtEnd?
  {
    var p := Peek(s);
    if p.Bad? then Failed(Inside(p.e))
    else if p.c != 'r' as int then Failed(BadCharacter)
    else Plus(1, RawFrom(s[1..], 0, v2))
  }

  // ---------- Quoted strings ----------

  /** The state of the quoted string reader after its opening quote. */
  datatype QuoteState = QuoteState(escaped: bool, folding: bool, done: bool)

  /**
    One rune of a quoted string: the state after it, or None when the reader stops before it.  slash
    tells whether a slash follows.
   */
  function QuoteStep(st: QuoteState, c: rune, q: rune, v2: bool, slash: bool): Option<QuoteState> {
    if st.done then None
    else if st.folding && (IsWhiteSpace(c) || IsNewline(c)) then Some(st)
    else if c == BACKSLASH then
      if v2 && slash then None else Some(QuoteState(!st.escaped, false, false))
    else if c == q then Some(QuoteState(false, false, !st.escaped))
    else if c == ' ' as int || c == '\t' as int then
      if v2 && st.escaped then Some(QuoteState(false, true, false)) else Some(st.(folding := false))
    else if c == '\n' as int || c == '\r' as int then
      if !v2 then Some(st.(folding := false))
      else if !st.escaped then None
      else Some(QuoteState(false, true, false))
    else Some(QuoteState(false, false, false))
  }

  /** The bytes read in a given state. */
  function QuoteLength(s: Bytes, q: rune, v2: bool, st: QuoteState): (n: nat)
    ensures n <= |s|
    decreases |s|
  {
    var p := Peek(s);
    if p.Bad? then 0
    else
      var next := QuoteStep(st, p.c, q, v2, Next(s[p.size..], SLASH));
      if next.None? then 0 else p.size + QuoteLength(s[p.size..], q, v2, next.value)
  }

  const OPENED := QuoteState(false, false, false)

  /** readQuotedStringQ; a string that is not closed ends with the input or, in version 2, the line. */
  function QuotedScan(s: Bytes, q: rune, v2: bool): (r: Scan)
    ensures r.Got? ==> 2 <= r.n <= |s|
    ensures r.Failed? ==> !r.e.AtEnd?
  {
    var p := Peek(s);
    if p.Bad? then Failed(Inside(p.e))
    else if p.c != q then Failed(BadCharacter)
    else
      var t := s[p.size..];
      var n := QuoteLength(t, q, v2, OPENED);
      var stop := Peek(t[n..]);
      if stop.Bad? && !stop.e.AtEnd? then Failed(stop.e)
      else if p.size + n < 2 then Failed(EndOfToken)
      else Got(p.size + n)
  }

  // ---------- Multi-line strings ----------

  /** Blanks up to the end of the opening line. */
  function OpeningLine(s: Bytes): (r: Scan)
    ensures r.Got? ==> r.n <= |s|
    ensures r.Failed? ==> !r.e.AtEnd?
    decreases |s|
  {
    var p := Peek(s);
    if p.Bad? then Failed(UnexpectedEOF)
    else if p.c == ' ' as int || p.c == '\t' as int then Plus(1, OpeningLine(s[1..]))
    else if p.c == '\n' as int || p.c == '\r' as int then Got(0)
    else Failed(BadCharacter)
  }

  /** Up to and including three quotes and h number signs; backslashes escape when h is zero. */
  function MultiLineContent(s: Bytes, q: rune, h: nat): (r: Scan)
    requires q < 0x80
    ensures r.Got? ==> 3 + h <= r.n <= |s|
    ensures r.Failed? ==> !r.e.AtEnd?
    decreases |s|
  {
    var p := Peek(s);
    if p.Bad? then Failed(Inside(p.e))
    else
      var t := s[p.size..];
      if p.c == BACKSLASH && h == 0 then
        var esc := Peek(t);
        if esc.Bad? then Failed(UnexpectedEOF) else Plus(p.size + esc.size, MultiLineContent(t[esc.size..], q, h))
      else if p.c == q && Next(t, q) && Next(t[1..], q) then
        var k := HashRun(t[2..], h);
        if k == h then Got(3 + h) else Plus(3 + k, MultiLineContent(t[2 + k..], q, h))
      else Plus(p.size, MultiLineContent(t, q, h))
  }

  /** The first k runes, whatever they are. */
  function Several(s: Bytes, k: nat): (r: Scan)
    ensures r.Got? ==> r.n <= |s|
    ensures r.Got? && k > 0 ==> r.n > 0
    ensures r.Failed? ==> r.e.UnexpectedEOF?
    decreases k
  {
    if k == 0 then Got(0)
    else
      var p := Peek(s);
      if p.Bad? then Failed(UnexpectedEOF) else Plus(p.size, Several(s[p.size..], k - 1))
  }

  /** The opening quotes and the rest of their line. */
  function Opening(s: Bytes): (r: Scan)
    ensures r.Got? ==> 1 <= r.n <= |s|
    ensures r.Failed? ==> !r.e.AtEnd?
  {
    var open := Several(s, 3);
    if open.Failed? then open else Plus(open.n, OpeningLine(s[open.n..]))
  }

  /** readMultiLineStringRawNoMark, and readMultiLineExpressionString with backticks. */
  function MultiLine(s: Bytes, q: rune, h: nat): (r: Scan)
    requires q < 0x80
    ensures r.Got? ==> 3 <= r.n <= |s|
    ensures r.Failed? ==> !r.e.AtEnd?
  {
    var open := Opening(s);
    if open.Failed? then open else Plus(open.n, MultiLineContent(s[open.n..], q, h))
  }

  // ---------- Numbers ----------

  function Digits(): (nat, rune) -> bool { (i, c) => IsDigit(c) || (i > 0 && c == UNDERSCORE) }

  /** readInteger */
  function Integer(s: Bytes): (r: Scan)
    ensures r.Got? ==> 1 <= r.n <= |s|
    ensures r.Failed? ==> !r.e.AtEnd?
  {
    While(s, Digits(), 1)
  }

  predicate IsSign(c: rune) { c == '+' as int || c == '-' as int }

  /** readSignedInteger; at the end of the input it fails with a plain end of input. */
  function SignedInteger(s: Bytes): (r: Scan)
    ensures r.Got? ==> 1 <= r.n <= |s|
    ensures r == Failed(AtEnd) <==> s == []
  {
    var p := Peek(s);
    if p.Bad? then Failed(p.e)
    else if IsSign(p.c) then Plus(1, Integer(s[1..]))
    else Integer(s)
  }

  /** The fraction, if there is one. */
  function Fraction(s: Bytes): (r: Scan)
    ensures r.Got? ==> r.n <= |s|
    ensures r.Failed? ==> !r.e.AtEnd?
  {
    if Next(s, '.' as int) then Plus(1, Integer(s[1..])) else Got(0)
  }

  /** The exponent, if there is one. */
  function Exponent(s: Bytes): (r: Scan)
    ensures r.Got? ==> r.n <= |s|
  {
    if Next(s, 'e' as int) || Next(s, 'E' as int) then Plus(1, SignedInteger(s[1..])) else Got(0)
  }

  /** A signed integer and its fraction. */
  function Mantissa(s: Bytes): (r: Scan)
    ensures r.Got? ==> 1 <= r.n <= |s|
  {
    var whole := SignedInteger(s);
    if whole.Failed? then whole else Plus(whole.n, Fraction(s[whole.n..]))
  }

  /** A number without regard to what follows it. */
  function Numeral(s: Bytes): (r: Scan)
    ensures r.Got? ==> 1 <= r.n <= |s|
  {
    var mantissa := Mantissa(s);
    if mantissa.Failed? then mantissa else Plus(mantissa.n, Exponent(s[mantissa.n..]))
  }

  /** readDecimal: a number must be followed by a separator or the end. */
  function DecimalNumber(s: Bytes): (r: Scan)
    ensures r.Got? ==> 1 <= r.n <= |s|
  {
    var number := Numeral(s);
    if number.Failed? then number
    else
      var stop := Peek(s[number.n..]);
      if stop.Rune? && !IsSeparator(stop.c) then Failed(BadCharacter) else number
  }

  /** The bases a number can be written in besides ten. */
  datatype Radix = Base16 | Base8 | Base2

  predicate RadixDigit(b: Radix, c: rune) {
    match b
    case Base16 => IsDigit(c) || 'a' as int <= c <= 'f' as int || 'A' as int <= c <= 'F' as int
    case Base8 => '0' as int <= c <= '7' as int
    case Base2 => c == '0' as int || c == '1' as int
  }

  predicate BasedChar(b: Radix, i: nat, c: rune) { i < 2 || RadixDigit(b, c) || c == UNDERSCORE }

  function Based(b: Radix): (nat, rune) -> bool { (i: nat, c: rune) => BasedChar(b, i, c) }

  /** readNumericBase: a prefix, then digits, then whitespace, a newline or the end. */
  function NumericBase(s: Bytes, b: Radix): (r: Scan)
    ensures r.Got? ==> 3 <= r.n <= |s|
    ensures r.Failed? ==> !r.e.AtEnd?
  {
    var lit := While(s, Based(b), 3);
    if lit.Failed? then lit
    else if s[2] == UNDERSCORE then Failed(BadCharacter)
    else
      var stop := Peek(s[lit.n..]);
      if stop.Rune? && !IsWhiteSpace(stop.c) && !IsNewline(stop.c) then Failed(BadCharacter) else lit
  }

  // ---------- Identifiers ----------

  /** A token's kind and its bytes, the first n of the input, or why there is none. */
  datatype Lexeme = Lexeme(id: TokenID, n: nat) | NoLexeme(e: ScanError)

  function Kind(id: TokenID, r: Scan): (l: Lexeme)
    ensures r.Got? ==> l == Lexeme(id, r.n)
    ensures r.Failed? ==> l == NoLexeme(r.e)
  {
    if r.Got? then Lexeme(id, r.n) else NoLexeme(r.e)
  }

  function IdentifierChars(v2: bool): (nat, rune) -> bool { (i, c) => IsIdentifierChar(c, false, v2) }

  function Signs(): (nat, rune) -> bool { (i, c) => IsSign(c) }

  /** The words version 2 does not accept without a number sign. */
  predicate Reserved(s: Bytes) {
    || s == Ascii("true") || s == Ascii("false") || s == Ascii("null")
    || s == Ascii("inf") || s == Ascii("-inf") || s == Ascii("nan")
  }

  function BareKind(s: Bytes): TokenID {
    if s == Ascii("true") || s == Ascii("false") then Boolean else if s == Ascii("null") then Null else BareIdentifier
  }

  /** readBareIdentifier after its first runes have been checked. */
  function BareRest(s: Bytes, v2: bool): (l: Lexeme)
    ensures l.Lexeme? ==> 1 <= l.n <= |s|
    ensures l.NoLexeme? ==> !l.e.AtEnd?
  {
    var r := While(s, IdentifierChars(v2), 1);
    if r.Failed? then NoLexeme(r.e)
    else if v2 && Reserved(s[..r.n]) then NoLexeme(BadCharacter)
    else Lexeme(BareKind(s[..r.n]), r.n)
  }

  /** readBareIdentifier */
  function Bare(s: Bytes, v2: bool): (l: Lexeme)
    ensures l.Lexeme? ==> 1 <= l.n <= |s|
    ensures l.NoLexeme? ==> !l.e.AtEnd?
  {
    var p := Peek(s);
    if p.Bad? then NoLexeme(Inside(p.e))
    else if IsSign(p.c) then
      var two := PeekTwo(s);
      if two.BadTwo? then
        if two.e.AtEnd? then Kind(BareIdentifier, While(s, Signs(), 1)) else NoLexeme(two.e)
      else if IsDigit(two.c2) then NoLexeme(BadCharacter)
      else BareRest(s, v2)
    else if !IsIdentifierChar(p.c, true, v2) then NoLexeme(BadCharacter)
    else BareRest(s, v2)
  }

  /** Three times the rune q. */
  predicate Thrice(s: Bytes, q: rune)
    requires q < 0x80
  {
    Next(s, q) && Next(s[1..], q) && Next(s[2..], q)
  }

  /** A string between quotes, or between three of them where the version has those. */
  function Quote(s: Bytes, q: rune, v2: bool): (r: Scan)
    requires q < 0x80
    ensures r.Got? ==> 1 <= r.n <= |s|
    ensures r.Failed? ==> !r.e.AtEnd?
  {
    if (v2 || q == BACKTICK) && Thrice(s, q) then MultiLine(s, q, 0) else QuotedScan(s, q, v2)
  }

  /** readIdentifier: a string of one kind or another, or a bare identifier. */
  function Identifier(s: Bytes, v2: bool): (l: Lexeme)
    ensures l.Lexeme? ==> 1 <= l.n <= |s|
    ensures l == NoLexeme(AtEnd) <==> s == []
  {
    var p := Peek(s);
    if p.Bad? then NoLexeme(p.e)
    else if p.c <= 0x20 then NoLexeme(BadCharacter)
    else if p.c == 'r' as int && !v2 && (Next(s[1..], HASH) || Next(s[1..], QUOTE)) then
      Kind(RawString, RawScan(s, v2))
    else if p.c == QUOTE then Kind(QuotedString, Quote(s, QUOTE, v2))
    else if p.c == BACKTICK then Kind(ExpressionString, Quote(s, BACKTICK, v2))
    else Bare(s, v2)
  }

  // ---------- Number sign tokens of version 2 ----------

  /** A word, letter by letter; the end of the input inside it is a plain end of input. */
  function Word(s: Bytes, w: Bytes): (r: Scan)
    requires forall i | 0 <= i < |w| :: w[i] < 0x80
    ensures r.Got? ==> r.n <= |s|
    decreases |w|
  {
    if w == [] then Got(0)
    else
      var p := Peek(s);
      if p.Bad? then Failed(p.e)
      else if p.c != w[0] then Failed(BadCharacter)
      else Plus(p.size, Word(s[p.size..], w[1..]))
  }

  /** The number signs at the front. */
  function Hashes(s: Bytes): (n: nat)
    ensures n <= |s|
  {
    if Next(s, HASH) then 1 + Hashes(s[1..]) else 0
  }

  /** A raw string after its h number signs: multi-line, or on one line. */
  function HashString(s: Bytes, h: nat): (r: Scan)
    ensures r.Got? ==> 1 <= r.n <= |s|
    ensures r.Failed? ==> !r.e.AtEnd?
  {
    if Peek(s).Bad? then Failed(UnexpectedEOF)
    else if Thrice(s, QUOTE) then MultiLine(s, QUOTE, h)
    else if !Next(s, QUOTE) then Failed(BadCharacter)
    else Plus(1, RawContent(s[1..], h, true))
  }

  /** The keywords after the number sign. */
  function KeywordToken(s: Bytes): (l: Lexeme)
    ensures l.Lexeme? ==> l.n <= |s|
  {
    if Next(s, 't' as int) then Kind(Boolean, Word(s, Ascii("true")))
    else if Next(s, 'f' as int) then Kind(Boolean, Word(s, Ascii("false")))
    else if Next(s, 'n' as int) then
      var two := PeekTwo(s);
      if two.BadTwo? then NoLexeme(two.e)
      else if two.c2 == 'u' as int then Kind(Null, Word(s, Ascii("null")))
      else Kind(Keyword, Word(s, Ascii("nan")))
    else if Next(s, 'i' as int) then Kind(Keyword, Word(s, Ascii("inf")))
    else if Next(s, '-' as int) then Kind(Keyword, Word(s, Ascii("-inf")))
    else NoLexeme(BadCharacter)
  }

  /** A raw string, one number sign already consumed. */
  function HashStringToken(s: Bytes): (l: Lexeme)
    ensures l.Lexeme? ==> l.n <= |s|
    ensures l.NoLexeme? ==> !l.e.AtEnd?
  {
    var k := Hashes(s);
    var t := s[k..];
    Kind(if Thrice(t, QUOTE) then QuotedString else RawString, Plus(k, HashString(t, k + 1)))
  }

  /** readHashToken after the number sign. */
  function HashRest(s: Bytes): (l: Lexeme)
    ensures l.Lexeme? ==> l.n <= |s|
  {
    if Peek(s).Bad? then NoLexeme(Inside(Peek(s).e))
    else if Next(s, QUOTE) || Next(s, HASH) then HashStringToken(s)
    else KeywordToken(s)
  }

  /** readHashToken */
  function HashToken(s: Bytes): (l: Lexeme)
    requires Next(s, HASH)
    ensures l.Lexeme? ==> 1 <= l.n <= |s|
  {
    var l := HashRest(s[1..]);
    if l.Lexeme? then Lexeme(l.id, 1 + l.n) else l
  }

  // ---------- Tokens ----------

  /** A token beginning with a slash. */
  function SlashToken(s: Bytes): (l: Lexeme)
    requires Next(s, SLASH)
    ensures l.Lexeme? ==> 1 <= l.n <= |s|
  {
    var two := PeekTwo(s);
    if two.BadTwo? then NoLexeme(two.e)
    else if two.c2 == STAR then Kind(MultiLineComment, Comment(s, 0))
    else if two.c2 == SLASH then
      var r := LineComment(s);
      LineCommentAdvances(s);
      Kind(SingleLineComment, r)
    else if two.c2 == '-' as int then Lexeme(TokenComment, 2)
    else NoLexeme(BadCharacter)
  }

  lemma LineCommentAdvances(s: Bytes)
    requires Next(s, SLASH)
    ensures LineComment(s).Got? ==> LineComment(s).n >= 1
  {}

  /** A token beginning with a sign or a question mark. */
  function SignToken(s: Bytes, v2: bool): (l: Lexeme)
    requires s != []
    ensures l.Lexeme? ==> 1 <= l.n <= |s|
  {
    var two := PeekTwo(s);
    if two.BadTwo? then
      if two.e.AtEnd? && !Next(s, '?' as int) then Identifier(s, v2) else NoLexeme(two.e)
    else if two.c1 != '?' as int && IsDigit(two.c2) then Kind(Decimal, DecimalNumber(s))
    else Identifier(s, v2)
  }

  /** A token beginning with a zero. */
  function ZeroToken(s: Bytes): (l: Lexeme)
    requires Next(s, '0' as int)
    ensures l.Lexeme? ==> 1 <= l.n <= |s|
  {
    var two := PeekTwo(s);
    if two.BadTwo? then NoLexeme(two.e)
    else if two.c2 == 'x' as int then Kind(Hexadecimal, NumericBase(s, Base16))
    else if two.c2 == 'o' as int then Kind(Octal, NumericBase(s, Base8))
    else if two.c2 == 'b' as int then Kind(Binary, NumericBase(s, Base2))
    else Kind(Decimal, DecimalNumber(s))
  }

  /** The kinds of the tokens that are one rune long. */
  function Punctuation(c: rune): Option<TokenID> {
    if c == '(' as int then Some(ParensOpen)
    else if c == ')' as int then Some(ParensClose)
    else if c == '{' as int then Some(BraceOpen)
    else if c == '}' as int then Some(BraceClose)
    else if c == '=' as int then Some(Equals)
    else if c == ';' as int then Some(Semicolon)
    else if c == BACKSLASH then Some(Continuation)
    else if IsNewline(c) && c != '\r' as int then Some(Newline)
    else None
  }

  /** A token that begins with neither whitespace, a newline nor punctuation. */
  function OtherToken(s: Bytes, v2: bool): (l: Lexeme)
    requires Peek(s).Rune?
    ensures l.Lexeme? ==> 1 <= l.n <= |s|
  {
    var c := Peek(s).c;
    if c == SLASH then SlashToken(s)
    else if c == ',' as int then NoLexeme(BadCharacter)
    else if IsSign(c) || c == '?' as int then SignToken(s, v2)
    else if c == '0' as int then ZeroToken(s)
    else if IsDigit(c) then Kind(Decimal, DecimalNumber(s))
    else if c == '.' as int && v2 && PeekTwo(s).Two? && IsDigit(PeekTwo(s).c2) then NoLexeme(BadCharacter)
    else if c == HASH && v2 then HashToken(s)
    else Identifier(s, v2)
  }

  /** readNext without relaxed modes; start tells whether a byte order mark is acceptable. */
  function NextToken(s: Bytes, v2: bool, start: bool): (l: Lexeme)
    ensures l.Lexeme? ==> 1 <= l.n <= |s|
  {
    var p := Peek(s);
    if p.Bad? then NoLexeme(p.e)
    else if IsWhiteSpace(p.c) then Lexeme(Whitespace, RunLength(s, 0, White()))
    else if p.c == BOM then if start then Lexeme(Whitespace, p.size) else NoLexeme(BadCharacter)
    else if p.c == '\r' as int then Lexeme(Newline, if Next(s[1..], '\n' as int) then 2 else 1)
    else if Punctuation(p.c).Some? then Lexeme(Punctuation(p.c).value, p.size)
    else OtherToken(s, v2)
  }

  // ---------- The end of the input inside a token ----------

  lemma {:induction false} WordEnd(s: Bytes, w: Bytes)
    requires forall i | 0 <= i < |w| :: w[i] < 0x80
    ensures Word(s, w) == Failed(AtEnd) ==> |s| < |w| && s == w[..|s|]
    decreases |w|
  {
    if w != [] {
      var p := Peek(s);
      if p.Rune? && p.c == w[0] {
        WordEnd(s[1..], w[1..]);
      }
    }
  }

  predicate EndsLine(s: Bytes) { s != [] && s[|s| - 1] == 0x0A }

  lemma DecimalEnd(s: Bytes)
    requires EndsLine(s)
    ensures DecimalNumber(s) != Failed(AtEnd)
  {
    hide Peek, Integer, While;
    if Mantissa(s).Got? {
      ExponentEnd(s[Mantissa(s).n..]);
    }
  }

  lemma ExponentEnd(s: Bytes)
    requires EndsLine(s) || s == []
    ensures Exponent(s) != Failed(AtEnd)
  {
    hide Integer, While;
    if s != [] {
      assert s[1..] == [] ==> s[0] == 0x0A;
    }
  }

  lemma HashEnd(s: Bytes)
    requires EndsLine(s)
    ensures HashRest(s) != NoLexeme(AtEnd)
  {
    hide HashStringToken, Word;
    WordEnd(s, Ascii("true"));
    WordEnd(s, Ascii("false"));
    WordEnd(s, Ascii("null"));
    WordEnd(s, Ascii("nan"));
    WordEnd(s, Ascii("inf"));
    WordEnd(s, Ascii("-inf"));
    LongLine(s);
  }

  /** Only the last byte of the input can be followed by its end. */
  lemma LongLine(s: Bytes)
    requires EndsLine(s)
    ensures PeekTwo(s) == BadTwo(AtEnd) ==> Next(s, 0x0A)
  {
    var p := Peek(s);
    if p.Rune? && s[p.size..] == [] && p.size > 1 {
      MultiByte(s);
    }
  }

  /** An input that ends with a newline does not end inside a token. */
  lemma EndInsideToken(s: Bytes, v2: bool, start: bool)
    requires EndsLine(s)
    ensures NextToken(s, v2, start) != NoLexeme(AtEnd)
  {
    hide HashRest, DecimalNumber, Identifier, Peek, Comment, LineComment, NumericBase;
    LongLine(s);
    DecimalEnd(s);
    if Next(s, HASH) {
      HashEnd(s[1..]);
    }
  }
}
