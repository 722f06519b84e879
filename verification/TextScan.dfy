/**
  From text back to trees: the tokenizer on the text of a written document returns the document's
  tokens, so that printing, scanning and parsing gives the document back.
 */
module TextScan {
  import opened Wrappers
  import opened Utf8
  import opened Tokens
  import opened Document
  import opened Syntax
  import opened Numerals
  import opened Lookahead
  import opened Tokenize
  import opened Runes
  import opened Printer
  import opened Reading
  import opened Scans
  import Machine
  import Quoted
  import RoundTrip
  import Driver

  /** The token is what the scanner reads where its bytes are followed by rest. */
  predicate ScansAs(t: Token, rest: Bytes) {
    t.data != [] && NextToken(t.data + rest, false, false) == Lexeme(t.id, |t.data|)
  }

  /** The scanner fails at the token or in it. */
  predicate Refused(t: Token, rest: Bytes) {
    ScanFrom(t.data + rest, false, false).ScanFailed?
  }

  predicate ReadsAs(t: Token, rest: Bytes, good: bool) {
    if good then ScansAs(t, rest) else Refused(t, rest)
  }

  predicate Readable(ts: seq<Token>, rest: Bytes) {
    ts == [] || (ScansAs(ts[0], Text(ts[1..]) + rest) && Readable(ts[1..], rest))
  }

  /** Tokens that are read, up to one that is refused. */
  predicate Broken(ts: seq<Token>, rest: Bytes) {
    && ts != []
    && (|| Refused(ts[0], Text(ts[1..]) + rest)
        || (ScansAs(ts[0], Text(ts[1..]) + rest) && Broken(ts[1..], rest)))
  }

  /** All of the tokens are read, or the scanner fails at one of them. */
  predicate Reads(ts: seq<Token>, rest: Bytes, good: bool) {
    if good then Readable(ts, rest) else Broken(ts, rest)
  }

  lemma {:induction false} ReadsConcat(a: seq<Token>, b: seq<Token>, rest: Bytes, first: bool, second: bool)
    requires Reads(a, Text(b) + rest, first) && Reads(b, rest, second)
    ensures Reads(a + b, rest, first && second)
    decreases |a|
  {
    hide ScansAs, Refused, Text;
    if a == [] {
      assert a + b == b;
    } else {
      assert (a + b)[1..] == a[1..] + b;
      TextConcat(a[1..], b);
      assert Text(a[1..]) + (Text(b) + rest) == (Text(a[1..]) + Text(b)) + rest;
      if first || !Refused(a[0], Text(a[1..]) + (Text(b) + rest)) {
        ReadsConcat(a[1..], b, rest, first, second);
      }
    }
  }

  lemma ReadsCons(t: Token, ts: seq<Token>, rest: Bytes, first: bool, second: bool)
    requires ReadsAs(t, Text(ts) + rest, first) && Reads(ts, rest, second)
    ensures Reads([t] + ts, rest, first && second)
  {
    hide ScansAs, Refused, Text;
    assert ([t] + ts)[1..] == ts;
  }

  lemma ReadsOne(t: Token, rest: Bytes, good: bool)
    requires ReadsAs(t, rest, good)
    ensures Reads([t], rest, good)
  {
    hide ReadsAs, Reads;
    NoTokens(rest);
    ReadsCons(t, [], rest, good, true);
    assert [t] + [] == [t];
  }

  /** The tokens as a scan returns them. */
  function Lexemes(ts: seq<Token>): seq<Lexed> {
    if ts == [] then [] else [Lexed(ts[0].id, ts[0].data)] + Lexemes(ts[1..])
  }

  lemma {:induction false} ReadableScans(ts: seq<Token>)
    requires Readable(ts, [])
    ensures ScanFrom(Text(ts), false, false) == Tokens(Lexemes(ts))
  {
    hide NextToken;
    if ts == [] {
      NothingThere(false);
    } else {
      var t, more := ts[0], Text(ts[1..]);
      assert more + [] == more;
      assert (t.data + more)[|t.data|..] == more && (t.data + more)[..|t.data|] == t.data;
      ReadableScans(ts[1..]);
    }
  }

  lemma {:induction false} BrokenScans(ts: seq<Token>)
    requires Broken(ts, [])
    ensures ScanFrom(Text(ts), false, false).ScanFailed?
  {
    hide NextToken, ScanFrom;
    var t, more := ts[0], Text(ts[1..]);
    assert more + [] == more;
    if !Refused(t, more) {
      assert (t.data + more)[|t.data|..] == more;
      BrokenScans(ts[1..]);
      FailsLater(t.data + more);
    }
  }

  /** Failing at the next token, or further on. */
  lemma FailsLater(s: Bytes)
    ensures var l := NextToken(s, false, false);
            (l.NoLexeme? && !l.e.AtEnd?) || (l.Lexeme? && ScanFrom(s[l.n..], false, false).ScanFailed?)
            ==> ScanFrom(s, false, false).ScanFailed?
  {
    hide NextToken;
  }

  lemma NothingThere(start: bool)
    ensures NextToken([], false, start) == NoLexeme(AtEnd)
  {}

  // ---------- Single tokens ----------

  lemma OneByte(c: byte, id: TokenID, rest: Bytes)
    requires c < 0x80 && Punctuation(c) == Some(id)
    ensures ScansAs(Tok(id, [c]), rest)
  {
    AsciiAhead(c, rest);
  }

  lemma Fixed(rest: Bytes)
    ensures ScansAs(NEWLINE, rest) && ScansAs(SEMICOLON, rest) && ScansAs(OPEN, rest) && ScansAs(CLOSE, rest)
    ensures ScansAs(LPAREN, rest) && ScansAs(RPAREN, rest) && ScansAs(EQUALS, rest)
  {
    hide ScansAs;
    OneByte(0x0A, Newline, rest);
    OneByte(';' as int, Semicolon, rest);
    OneByte('{' as int, BraceOpen, rest);
    OneByte('}' as int, BraceClose, rest);
    OneByte('(' as int, ParensOpen, rest);
    OneByte(')' as int, ParensClose, rest);
    OneByte('=' as int, Equals, rest);
  }

  lemma SlashdashScans(rest: Bytes)
    ensures ScansAs(SLASHDASH, rest)
  {
    hide Decode;
    var s := SLASHDASH.data + rest;
    assert s == [SLASH] + (['-' as int] + rest);
    AsciiAhead(SLASH, ['-' as int] + rest);
    AsciiAhead('-' as int, rest);
  }

  /** Text that does not begin with whitespace. */
  predicate Ink(s: Bytes) { Peek(s).Rune? ==> !IsWhiteSpace(Peek(s).c) }

  predicate Blank(s: Bytes) { forall i | 0 <= i < |s| :: s[i] == 0x20 || s[i] == 0x09 }

  lemma {:induction false} BlankRun(s: Bytes, rest: Bytes, i: nat)
    requires Blank(s) && Ink(rest)
    ensures RunLength(s + rest, i, White()) == |s|
  {
    if s == [] {
      assert s + rest == rest;
    } else {
      hide Decode;
      assert s + rest == [s[0]] + (s[1..] + rest);
      AsciiAhead(s[0], s[1..] + rest);
      BlankRun(s[1..], rest, i + 1);
    }
  }

  lemma BlankScans(s: Bytes, rest: Bytes)
    requires s != [] && Blank(s) && Ink(rest)
    ensures ScansAs(Tok(Whitespace, s), rest)
  {
    hide RunLength, Decode;
    BlankRun(s, rest, 0);
    assert s + rest == [s[0]] + (s[1..] + rest);
    AsciiAhead(s[0], s[1..] + rest);
  }

  /** What is not scanned as whitespace does not begin with any. */
  lemma ScansInk(t: Token, rest: Bytes)
    requires ScansAs(t, rest) && !t.id.Whitespace?
    ensures Ink(t.data + rest)
  {
    hide OtherToken;
  }

  /** What may follow a value or a name on its line. */
  predicate Stop(rest: Bytes) {
    rest != [] && (rest[0] == 0x20 || rest[0] == 0x0A || rest[0] == ';' as int || rest[0] == '=' as int || rest[0] == ')' as int)
  }

  lemma StopIsRune(rest: Bytes)
    requires Stop(rest)
    ensures Peek(rest) == Rune(rest[0], 1)
  {}

  /** A quoted string is read unless the replacement character is written out in it. */
  lemma QuotedReads(s: Bytes, rest: Bytes)
    requires Stop(rest)
    ensures var t := Tok(QuotedString, Quoted.Quote(s, Quoted.QUOTE)); ReadsAs(t, rest, NoRep(s)) && Ink(t.data + rest)
  {
    hide QuotedScan, Quoted.EscapeAll, Decode, Quoted.Unquote, NoRep, ScanFrom;
    var q := Quoted.Quote(s, Quoted.QUOTE);
    StopIsRune(rest);
    QuotedStringReadBack(s, rest, false);
    assert q + rest == [Quoted.QUOTE] + (q[1..] + rest);
    AsciiAhead(Quoted.QUOTE, q[1..] + rest);
    FailsLater(q + rest);
  }

  // ---------- Bare identifiers ----------

  /** A bare spelling does not begin with a backtick. */
  predicate NoBacktick(s: Bytes) { !Next(s, Tokenize.BACKTICK) }

  predicate SignDigit(s: Bytes) {
    Peek(s).Rune? && IsSign(Peek(s).c) && Peek(s[1..]).Rune? && IsDigit(Peek(s[1..]).c)
  }

  predicate RawStart(s: Bytes) { |s| > 1 && s[0] == 'r' as int && s[1] == '#' as int }

  /** A bare spelling that does not begin like a token of another kind. */
  predicate BareSpelling(s: Bytes) { NoBacktick(s) && !Next(s, BOM) && !SignDigit(s) && !RawStart(s) }

  /** An ASCII character does not change how the text before it begins. */
  lemma PeekBefore(s: Bytes, rest: Bytes)
    requires s != [] && Stop(rest)
    ensures Peek(s + rest) == Peek(s)
  {
    hide Decode;
    if Peek(s).Rune? {
      PeekPrefix(s, rest);
    } else if Peek(s + rest).Rune? {
      RuneBefore(s, rest);
    }
  }

  /** The reader of identifiers arrives at the end of a name, or where it cannot be decoded. */
  lemma {:induction false} NameRun(s: Bytes, rest: Bytes, first: bool, i: nat, v2: bool)
    requires AllIdentifierChars(s, first, v2) && Stop(rest)
    ensures var n := RunLength(s + rest, i, IdentifierChars(v2));
            if Clean(s) then n == |s| else Peek((s + rest)[n..]) == Bad(InvalidRune)
    decreases |s|
  {
    hide Peek, RunLength, AllIdentifierChars, Clean;
    RunStep(s + rest, i, v2);
    NameStep(s, first, v2);
    if s == [] {
      assert s + rest == rest;
      StopIsRune(rest);
    } else {
      PeekBefore(s, rest);
      if Peek(s).Rune? {
        PeekSizes(s);
        var n := Peek(s).size;
        assert (s + rest)[n..] == s[n..] + rest;
        NameRun(s[n..], rest, false, i + 1, v2);
        var k := RunLength(s[n..] + rest, i + 1, IdentifierChars(v2));
        assert (s[n..] + rest)[k..] == (s + rest)[n + k..];
      } else {
        BadKinds(s);
        assert (s + rest)[0..] == s + rest;
      }
    }
  }

  lemma NameStep(s: Bytes, first: bool, v2: bool)
    requires AllIdentifierChars(s, first, v2)
    ensures Clean(s) <==> s == [] || (Peek(s).Rune? && Clean(s[Peek(s).size..]))
    ensures Peek(s).Rune? ==> IsIdentifierChar(Peek(s).c, false, v2) && AllIdentifierChars(s[Peek(s).size..], false, v2)
    ensures s != [] ==> Peek(s) != Bad(AtEnd)
  {
    hide Decode;
    if Peek(s).Rune? {
      PeekIsDecode(s);
    }
  }

  lemma RunStep(s: Bytes, i: nat, v2: bool)
    ensures RunLength(s, i, IdentifierChars(v2))
         == if Peek(s).Rune? && IsIdentifierChar(Peek(s).c, false, v2)
            then Peek(s).size + RunLength(s[Peek(s).size..], i + 1, IdentifierChars(v2)) else 0
  {
    hide Decode;
  }

  lemma NameWhile(s: Bytes, rest: Bytes, v2: bool)
    requires IsBareIdentifier(s, v2) && Stop(rest)
    ensures While(s + rest, IdentifierChars(v2), 1) == if Clean(s) then Got(|s|) else Failed(InvalidRune)
  {
    hide RunLength, Clean, AllIdentifierChars;
    NameRun(s, rest, true, 0, v2);
    assert (s + rest)[|s|..] == rest;
    StopIsRune(rest);
  }

  /** The second rune of a name, or what follows it. */
  lemma SecondRune(s: Bytes, rest: Bytes)
    requires Peek(s).Rune? && Stop(rest)
    ensures Peek(s + rest) == Peek(s)
    ensures var n := Peek(s).size;
            && (s + rest)[n..] == s[n..] + rest
            && Peek(s[n..] + rest) == if s[n..] == [] then Rune(rest[0], 1) else Peek(s[n..])
  {
    hide Decode;
    var n := Peek(s).size;
    PeekBefore(s, rest);
    assert (s + rest)[n..] == s[n..] + rest;
    if s[n..] == [] {
      assert s[n..] + rest == rest;
    } else {
      PeekBefore(s[n..], rest);
    }
  }

  lemma FirstChar(s: Bytes, v2: bool)
    requires IsBareIdentifier(s, v2) && Peek(s).Rune?
    ensures IsIdentifierChar(Peek(s).c, true, v2)
    ensures var n := Peek(s).size; Peek(s[n..]).Rune? ==> IsIdentifierChar(Peek(s[n..]).c, false, v2)
  {
    hide Decode, IsIdentifierChar;
    PeekIsDecode(s);
    var t := s[Peek(s).size..];
    assert AllIdentifierChars(t, false, v2);
    if Peek(t).Rune? {
      PeekIsDecode(t);
    }
  }

  /** A sign or a question mark before something that cannot be decoded. */
  predicate SignThenBad(s: Bytes) {
    Peek(s).Rune? && (IsSign(Peek(s).c) || Peek(s).c == '?' as int) && Peek(s[Peek(s).size..]) == Bad(InvalidRune)
  }

  lemma BareIsRead(s: Bytes, rest: Bytes)
    requires IsBareIdentifier(s, false) && Peek(s).Rune? && !SignThenBad(s) && Stop(rest) && BareSpelling(s)
    ensures Bare(s + rest, false) == if Clean(s) then Lexeme(BareTok(s).id, |s|) else NoLexeme(InvalidRune)
  {
    hide Clean, IsBareIdentifier, While, Decode, IsNumber;
    NameWhile(s, rest, false);
    FirstChar(s, false);
    SecondRune(s, rest);
    BadKinds(s[Peek(s).size..]);
    if IsNumber(s) {
      NumberBegins(s);
    }
    assert (s + rest)[..|s|] == s;
  }

  /** A bare identifier is not taken for anything else. */
  lemma BareIsIdentifier(s: Bytes, rest: Bytes)
    requires IsBareIdentifier(s, false) && Peek(s).Rune? && Stop(rest) && BareSpelling(s)
    ensures Identifier(s + rest, false) == Bare(s + rest, false)
  {
    hide IsBareIdentifier, Bare, Decode;
    FirstChar(s, false);
    SecondRune(s, rest);
  }

  /** A character that can begin an identifier begins no token of another kind, or one of the named few. */
  lemma FirstIsPlain(c: rune)
    requires IsIdentifierChar(c, true, false)
    ensures !IsWhiteSpace(c) && c != '\r' as int && Punctuation(c).None? && c != SLASH && c != ',' as int && !IsDigit(c)
  {}

  lemma NameIsOther(s: Bytes)
    requires Peek(s).Rune? && IsIdentifierChar(Peek(s).c, true, false) && Peek(s).c != BOM
    ensures NextToken(s, false, false) == OtherToken(s, false)
  {
    hide OtherToken, Peek, IsIdentifierChar, IsWhiteSpace, Punctuation;
    FirstIsPlain(Peek(s).c);
  }

  lemma OtherIsName(s: Bytes, rest: Bytes)
    requires IsBareIdentifier(s, false) && Peek(s).Rune? && Stop(rest) && BareSpelling(s)
    ensures Peek(s + rest).Rune?
    ensures OtherToken(s + rest, false) == if SignThenBad(s) then NoLexeme(InvalidRune) else Identifier(s + rest, false)
  {
    hide IsBareIdentifier, Identifier, Decode, DecimalNumber, IsIdentifierChar, ZeroToken, SlashToken;
    FirstChar(s, false);
    FirstIsPlain(Peek(s).c);
    SecondRune(s, rest);
    BadKinds(s[Peek(s).size..]);
  }

  /** What can be decoded altogether can be decoded at its beginning. */
  lemma CleanBegins(s: Bytes)
    requires s != [] && Clean(s)
    ensures Peek(s).Rune? && !SignThenBad(s)
  {}

  lemma NotEmpty(s: Bytes)
    requires IsBareIdentifier(s, false)
    ensures s != []
  {}

  lemma NothingDecoded(s: Bytes)
    requires Peek(s).Bad?
    ensures NextToken(s, false, false) == NoLexeme(Peek(s).e)
  {}

  lemma BareBeginsInk(s: Bytes, rest: Bytes)
    requires IsBareIdentifier(s, false) && Stop(rest)
    ensures Ink(s + rest)
  {
    hide Decode, IsIdentifierChar, IsWhiteSpace, AllIdentifierChars;
    NotEmpty(s);
    PeekBefore(s, rest);
    if Peek(s).Rune? {
      FirstChar(s, false);
      FirstIsPlain(Peek(s).c);
    }
  }

  lemma SpellingStart(s: Bytes)
    requires BareSpelling(s)
    ensures Peek(s).Rune? ==> Peek(s).c != BOM
  {}

  /** A bare name with a spelling of its own is the next token, unless it cannot be decoded. */
  lemma BareIsNext(s: Bytes, rest: Bytes)
    requires IsBareIdentifier(s, false) && Stop(rest) && BareSpelling(s)
    ensures NextToken(s + rest, false, false) == if Clean(s) then Lexeme(BareTok(s).id, |s|) else NoLexeme(InvalidRune)
  {
    hide Clean, IsBareIdentifier, BareSpelling, SignThenBad, Bare, Identifier, Decode, OtherToken, NextToken, IsIdentifierChar;
    hide BareId;
    NotEmpty(s);
    PeekBefore(s, rest);
    if Clean(s) {
      CleanBegins(s);
    }
    if Peek(s).Rune? {
      FirstChar(s, false);
      SpellingStart(s);
      SecondRune(s, rest);
      NameIsOther(s + rest);
      OtherIsName(s, rest);
      BareIsIdentifier(s, rest);
      if !SignThenBad(s) {
        BareIsRead(s, rest);
      }
    } else {
      BadKinds(s);
      NothingDecoded(s + rest);
    }
  }

  // ---------- Names spelled like numbers ----------

  /** The same outcome, errors aside. */
  predicate Alike(a: Scan, b: Scan) { a == b || (a.Failed? && b.Failed?) }

  /** What a reader of numbers consumes of u is digits, signs, points and letters. */
  predicate InAscii(u: Bytes, r: Scan) { r.Got? ==> r.n <= |u| && forall i | 0 <= i < r.n :: u[i] < 0x80 }

  lemma PeekOrStop(u: Bytes, rest: Bytes)
    requires Stop(rest)
    ensures Peek(u + rest) == if u == [] then Rune(rest[0], 1) else Peek(u)
  {
    if u == [] {
      assert u + rest == rest;
      StopIsRune(rest);
    } else {
      PeekBefore(u, rest);
    }
  }

  lemma {:induction false} DigitsLocal(u: Bytes, rest: Bytes, i: nat)
    requires Stop(rest)
    ensures var n := RunLength(u, i, Digits());
            RunLength(u + rest, i, Digits()) == n && forall k | 0 <= k < n :: u[k] < 0x80
    decreases |u|
  {
    hide Decode;
    PeekOrStop(u, rest);
    if Peek(u).Rune? && Digits()(i, Peek(u).c) {
      assert (u + rest)[1..] == u[1..] + rest;
      DigitsLocal(u[1..], rest, i + 1);
      assert forall k | 1 <= k <= |u| - 1 :: u[k] == u[1..][k - 1];
    }
  }

  lemma IntegerLocal(u: Bytes, rest: Bytes)
    requires Stop(rest)
    ensures Integer(u + rest) == Integer(u) && InAscii(u, Integer(u))
  {
    hide RunLength, Decode;
    DigitsLocal(u, rest, 0);
    var n := RunLength(u, 0, Digits());
    assert (u + rest)[n..] == u[n..] + rest;
    PeekOrStop(u[n..], rest);
  }

  lemma SignedLocal(u: Bytes, rest: Bytes)
    requires Stop(rest)
    ensures Alike(SignedInteger(u + rest), SignedInteger(u)) && InAscii(u, SignedInteger(u))
    ensures SignedInteger(u + rest) != Failed(AtEnd)
  {
    hide Integer, Decode;
    PeekOrStop(u, rest);
    IntegerLocal(u, rest);
    if u == [] {
      IntegerNowhere();
    } else {
      assert (u + rest)[1..] == u[1..] + rest;
      IntegerLocal(u[1..], rest);
      assert forall k | 1 <= k < |u| :: u[k] == u[1..][k - 1];
    }
  }

  lemma IntegerNowhere()
    ensures Integer([]).Failed?
  {}

  lemma FractionLocal(u: Bytes, rest: Bytes)
    requires Stop(rest)
    ensures Fraction(u + rest) == Fraction(u) && InAscii(u, Fraction(u))
  {
    hide Integer, Decode;
    PeekOrStop(u, rest);
    if u != [] {
      assert (u + rest)[1..] == u[1..] + rest;
      IntegerLocal(u[1..], rest);
      assert forall k | 1 <= k < |u| :: u[k] == u[1..][k - 1];
    }
  }

  lemma ExponentLocal(u: Bytes, rest: Bytes)
    requires Stop(rest)
    ensures Alike(Exponent(u + rest), Exponent(u)) && InAscii(u, Exponent(u)) && Exponent(u + rest) != Failed(AtEnd)
  {
    hide SignedInteger, Decode;
    PeekOrStop(u, rest);
    if u != [] {
      assert (u + rest)[1..] == u[1..] + rest;
      SignedLocal(u[1..], rest);
      assert forall k | 1 <= k < |u| :: u[k] == u[1..][k - 1];
    }
  }

  lemma Joined(u: Bytes, a: nat, b: Scan)
    requires a <= |u| && (forall i | 0 <= i < a :: u[i] < 0x80) && InAscii(u[a..], b)
    ensures InAscii(u, Plus(a, b))
  {
    assert forall i | a <= i < |u| :: u[i] == u[a..][i - a];
  }

  lemma NumeralLocal(u: Bytes, rest: Bytes)
    requires Stop(rest)
    ensures Alike(Numeral(u + rest), Numeral(u)) && InAscii(u, Numeral(u)) && Numeral(u + rest) != Failed(AtEnd)
  {
    hide SignedInteger, Fraction, Exponent;
    SignedLocal(u, rest);
    var whole := SignedInteger(u);
    if whole.Got? {
      assert (u + rest)[whole.n..] == u[whole.n..] + rest;
      FractionLocal(u[whole.n..], rest);
      Joined(u, whole.n, Fraction(u[whole.n..]));
      var m := Mantissa(u);
      if m.Got? {
        assert (u + rest)[m.n..] == u[m.n..] + rest;
        ExponentLocal(u[m.n..], rest);
        Joined(u, m.n, Exponent(u[m.n..]));
      }
    }
  }

  lemma {:induction false} CharsAfter(s: Bytes, n: nat, first: bool)
    requires AllIdentifierChars(s, first, false) && n <= |s| && forall i | 0 <= i < n :: s[i] < 0x80
    ensures Peek(s[n..]).Rune? ==> IsIdentifierChar(Peek(s[n..]).c, first && n == 0, false)
    decreases n
  {
    hide IsIdentifierChar;
    if n == 0 {
      assert s[0..] == s;
    } else {
      assert s[1..][n - 1..] == s[n..];
      CharsAfter(s[1..], n - 1, false);
    }
  }

  lemma NoSeparator(c: rune)
    requires IsIdentifierChar(c, false, false) || IsIdentifierChar(c, true, false)
    ensures !IsSeparator(c)
  {}

  /** The number at the beginning of such a name. */
  lemma NumberRead(s: Bytes, rest: Bytes)
    requires IsBareIdentifier(s, false) && Stop(rest)
    ensures var d := DecimalNumber(s + rest);
            if IsNumber(s) && rest[0] != '=' as int && rest[0] != ')' as int then d == Got(|s|)
            else d != Failed(AtEnd) && (d.Got? ==> Peek((s + rest)[d.n..]) == Bad(InvalidRune))
  {
    hide Numeral, Decode, IsIdentifierChar, IsSeparator, IsNumber;
    NumeralLocal(s, rest);
    NumeralGrammar(s);
    var r := Numeral(s + rest);
    if r.Got? {
      assert (s + rest)[r.n..] == s[r.n..] + rest;
      PeekOrStop(s[r.n..], rest);
      BadKinds(s[r.n..]);
      if Peek(s[r.n..]).Rune? {
        CharsAfter(s, r.n, true);
        NoSeparator(Peek(s[r.n..]).c);
      }
      Separators(rest);
    }
  }

  lemma Separators(rest: Bytes)
    requires Stop(rest)
    ensures IsSeparator(rest[0]) <==> rest[0] != '=' as int && rest[0] != ')' as int
  {}

  /** A name that begins like a number is read as one, as far as it goes. */
  lemma SignedIsNext(s: Bytes, rest: Bytes)
    requires IsBareIdentifier(s, false) && Stop(rest) && SignDigit(s)
    ensures NextToken(s + rest, false, false) == Kind(Decimal, DecimalNumber(s + rest))
  {
    hide IsBareIdentifier, Decode, DecimalNumber, IsIdentifierChar, OtherToken;
    FirstChar(s, false);
    SecondRune(s, rest);
    NameIsOther(s + rest);
    SignedIsOther(s, rest);
  }

  lemma SignedIsOther(s: Bytes, rest: Bytes)
    requires IsBareIdentifier(s, false) && Stop(rest) && SignDigit(s)
    ensures Peek(s + rest).Rune? && OtherToken(s + rest, false) == Kind(Decimal, DecimalNumber(s + rest))
  {
    hide IsBareIdentifier, Decode, DecimalNumber, Identifier, ZeroToken, SlashToken;
    SecondRune(s, rest);
  }

  /** It is read as a whole, and as a number, exactly when it is one and may end where it does. */
  lemma SignedReads(s: Bytes, rest: Bytes)
    requires IsBareIdentifier(s, false) && Stop(rest) && SignDigit(s)
    ensures ReadsAs(BareTok(s), rest, IsNumber(s) && rest[0] != '=' as int && rest[0] != ')' as int)
  {
    hide IsBareIdentifier, Peek, DecimalNumber, NextToken, IsNumber, ScanFrom, SignDigit;
    SignedIsNext(s, rest);
    NumberRead(s, rest);
    NotEmpty(s);
    NoKeyword(s);
    FailsLater(s + rest);
    var d := DecimalNumber(s + rest);
    if d.Got? && d.n <= |s + rest| {
      InvalidFails((s + rest)[d.n..]);
    }
  }

  lemma NoKeyword(s: Bytes)
    requires SignDigit(s)
    ensures !IsKeyword(s)
  {}

  lemma InvalidFails(s: Bytes)
    ensures Peek(s) == Bad(InvalidRune) ==> ScanFrom(s, false, false).ScanFailed?
  {}

  // ---------- Names spelled like raw strings ----------

  lemma {:induction false} RawFromFails(u: Bytes, rest: Bytes, h: nat)
    requires AllIdentifierChars(u, false, false) && Stop(rest)
    ensures RawFrom(u + rest, h, false).Failed?
    decreases |u|
  {
    hide Decode;
    PeekOrStop(u, rest);
    if Peek(u).Rune? {
      PeekIsDecode(u);
      assert (u + rest)[Peek(u).size..] == u[Peek(u).size..] + rest;
      RawFromFails(u[Peek(u).size..], rest, h + 1);
    }
  }

  lemma RawIsNext(s: Bytes, rest: Bytes)
    requires IsBareIdentifier(s, false) && Stop(rest) && RawStart(s)
    ensures var l := NextToken(s + rest, false, false); l.NoLexeme? && !l.e.AtEnd?
  {
    hide Decode, RawFrom;
    assert (s + rest)[0] == s[0] && (s + rest)[1..] == s[1..] + rest;
    AsciiSecond(s, rest);
    RawFromFails(s[1..], rest, 0);
  }

  lemma AsciiSecond(s: Bytes, rest: Bytes)
    requires |s| > 1 && s[0] < 0x80 && s[1] < 0x80
    ensures Peek(s) == Peek(s + rest) == Rune(s[0], 1) && Peek((s + rest)[1..]) == Rune(s[1], 1)
  {
    hide Decode;
    assert (s + rest)[0] == s[0] && (s + rest)[1..][0] == s[1];
  }

  lemma RawReads(s: Bytes, rest: Bytes)
    requires IsBareIdentifier(s, false) && Stop(rest) && RawStart(s)
    ensures ReadsAs(BareTok(s), rest, false)
  {
    hide NextToken, ScanFrom, IsBareIdentifier;
    RawIsNext(s, rest);
    FailsLater(s + rest);
  }

  // ---------- All bare names ----------

  /** Whether the scanner gets to the end of a bare spelling, followed by a separator or by punctuation. */
  predicate BareClean(s: Bytes, separated: bool) {
    if SignDigit(s) then IsNumber(s) && separated else !RawStart(s) && !Next(s, BOM) && Clean(s)
  }

  lemma SpelledReads(s: Bytes, rest: Bytes)
    requires IsBareIdentifier(s, false) && Stop(rest) && BareSpelling(s)
    ensures ReadsAs(BareTok(s), rest, Clean(s))
  {
    hide NextToken, ScanFrom, IsBareIdentifier, Clean, BareSpelling;
    NotEmpty(s);
    BareIsNext(s, rest);
    FailsLater(s + rest);
  }

  /** A byte order mark is refused where it is not at the beginning of the input. */
  lemma MarkReads(s: Bytes, rest: Bytes)
    requires Next(s, BOM)
    ensures ReadsAs(BareTok(s), rest, false)
  {
    hide NextToken, ScanFrom, Peek;
    PeekPrefix(s, rest);
    BomRefused(s + rest, false, false);
    FailsLater(s + rest);
  }

  /** A bare name is read as the token its spelling stands for, or the scan fails. */
  lemma BareReads(s: Bytes, rest: Bytes)
    requires IsBareIdentifier(s, false) && Stop(rest) && NoBacktick(s)
    ensures ReadsAs(BareTok(s), rest, BareClean(s, rest[0] != '=' as int && rest[0] != ')' as int)) && Ink(s + rest)
  {
    hide ReadsAs, IsBareIdentifier, Clean, IsNumber, SignDigit, RawStart, NoBacktick, Ink, Peek;
    BareBeginsInk(s, rest);
    if SignDigit(s) {
      SignedReads(s, rest);
    } else if RawStart(s) {
      RawReads(s, rest);
    } else if Next(s, BOM) {
      MarkReads(s, rest);
    } else {
      SpelledReads(s, rest);
    }
  }

  /** What begins with a backtick is no bare identifier. */
  lemma OtherKind(s: Bytes, rest: Bytes)
    requires IsBareIdentifier(s, false) && Stop(rest) && !NoBacktick(s)
    ensures var l := NextToken(s + rest, false, false); l.Lexeme? ==> l.id.ExpressionString?
  {
    hide IsBareIdentifier, Decode, OtherToken, IsIdentifierChar, Punctuation;
    FirstChar(s, false);
    SecondRune(s, rest);
    NameIsOther(s + rest);
    BacktickIsOther(s, rest);
  }

  lemma BacktickIsOther(s: Bytes, rest: Bytes)
    requires Peek(s) == Rune(Tokenize.BACKTICK, 1)
    ensures Peek(s + rest).Rune?
    ensures var l := OtherToken(s + rest, false); l.Lexeme? ==> l.id.ExpressionString?
  {
    hide Decode, DecimalNumber, ZeroToken, SlashToken, SignToken, RawScan, Quote;
    PeekPrefix(s, rest);
  }

  /**
    A bare name is scanned as a bare identifier or a keyword, before any separator, exactly when it can be
    decoded and does not begin with a backtick, a byte order mark, r and a number sign, or a sign and a digit.
   */
  lemma BareScans(s: Bytes, rest: Bytes)
    requires IsBareIdentifier(s, false) && Stop(rest)
    ensures var l := NextToken(s + rest, false, false);
            l.Lexeme? && l.n == |s| && (l.id.BareIdentifier? || l.id.Boolean? || l.id.Null?)
            <==> Clean(s) && BareSpelling(s)
  {
    hide NextToken, Clean, IsBareIdentifier, SignDigit, NoBacktick, RawStart, IsNumber, Peek;
    if !NoBacktick(s) {
      OtherKind(s, rest);
    } else if Next(s, BOM) {
      PeekPrefix(s, rest);
      BomRefused(s + rest, false, false);
    } else if SignDigit(s) {
      SignedIsNext(s, rest);
    } else if RawStart(s) {
      RawIsNext(s, rest);
    } else {
      BareIsNext(s, rest);
      if IsNumber(s) {
        NumberBegins(s);
      }
    }
  }

  /** Among the bare spellings only one that begins with a sign and a digit is a number. */
  lemma NumberBegins(s: Bytes)
    requires IsBareIdentifier(s, false) && IsNumber(s)
    ensures SignDigit(s)
  {
    hide Decode, Fraction, Exponent, IsNumber;
    NumeralGrammar(s);
    if Peek(s).Rune? {
      FirstChar(s, false);
    }
  }

  predicate Letters(s: Bytes) { forall i | 0 <= i < |s| :: 'a' as int <= s[i] <= 'z' as int }

  lemma {:induction false} LettersAreBare(s: Bytes, first: bool)
    requires Letters(s)
    ensures Clean(s) && AllIdentifierChars(s, first, false)
  {
    if s != [] {
      LettersAreBare(s[1..], false);
    }
  }

  lemma KeywordLetters(s: Bytes)
    requires IsKeyword(s)
    ensures s != [] && Letters(s)
  {}

  lemma LettersSpell(s: Bytes)
    requires s != [] && Letters(s)
    ensures BareSpelling(s)
  {
    hide Decode;
  }

  lemma KeywordScans(s: Bytes, rest: Bytes)
    requires IsKeyword(s) && Stop(rest)
    ensures ScansAs(BareTok(s), rest)
  {
    hide ScansAs, Clean, IsBareIdentifier, BareSpelling, Letters, IsKeyword;
    KeywordLetters(s);
    LettersAreBare(s, true);
    LettersSpell(s);
    BareFromChars(s);
    SpelledReads(s, rest);
  }

  lemma BareFromChars(s: Bytes)
    requires s != [] && AllIdentifierChars(s, true, false)
    ensures IsBareIdentifier(s, false)
  {}

  // ---------- Places for values ----------

  /** What follows a value: whitespace, the end of the line, or a semicolon where the layout writes them. */
  predicate Separator(rest: Bytes, lay: Layout) {
    rest != [] && (rest[0] == 0x20 || rest[0] == 0x0A || (lay.semicolons && rest[0] == ';' as int))
  }

  predicate EndsNode(rest: Bytes) { rest != [] && rest[0] == ';' as int }

  /** The text of a number is one the scanner reads as that number before any separator. */
  ghost predicate NumberScans(id: TokenID, text: Bytes, lay: Layout) {
    forall rest | Separator(rest, lay) :: ScansAs(Tok(id, text), rest)
  }

  // ---------- Numbers ----------

  /** A number as text begins with a digit, or a sign and a digit, and holds ASCII characters only. */
  lemma NumberBegin(text: Bytes)
    requires IsNumber(text)
    ensures text != [] && (forall i | 0 <= i < |text| :: text[i] < 0x80)
    ensures IsDigit(text[0]) || (IsSign(text[0]) && |text| > 1 && IsDigit(text[1]))
    ensures text[0] == '0' as int && |text| > 1 ==> text[1] != 'x' as int && text[1] != 'o' as int && text[1] != 'b' as int
  {
    hide Numeral, RunLength, Decode, IsNumber;
    NumeralLocal(text, [0x20]);
    NumeralGrammar(text);
    NumeralBegins(text);
  }

  lemma NumeralBegins(s: Bytes)
    requires Numeral(s).Got? && forall i | 0 <= i < Numeral(s).n :: s[i] < 0x80
    ensures IsDigit(s[0]) || (IsSign(s[0]) && |s| > 1 && Numeral(s).n > 1 && IsDigit(s[1]))
    ensures s[0] == '0' as int && |s| > 1 && (s[1] == 'x' as int || s[1] == 'o' as int || s[1] == 'b' as int) ==> Numeral(s).n == 1
  {
    hide Decode;
    IntegerBegins(s);
    if IsSign(s[0]) && |s| > 1 {
      IntegerBegins(s[1..]);
    }
    if s[0] == '0' as int && |s| > 1 && s[1] < 0x80 {
      assert s[1..][0] == s[1];
      AfterZero(s);
    }
  }

  /** An integer begins with a digit. */
  lemma IntegerBegins(s: Bytes)
    ensures Integer(s).Got? ==> Peek(s).Rune? && IsDigit(Peek(s).c) && s[0] == Peek(s).c
  {
    hide Decode;
  }

  lemma AfterZero(s: Bytes)
    requires |s| > 1 && s[0] == '0' as int && s[1] < 0x80
    ensures s[1] == 'x' as int || s[1] == 'o' as int || s[1] == 'b' as int ==> Numeral(s) == Got(1)
  {
    hide Decode;
    assert s[1..][0] == s[1];
    if s[1] == 'x' as int || s[1] == 'o' as int || s[1] == 'b' as int {
      var t := s[1..];
      assert RunLength(t, 1, Digits()) == 0;
      assert Integer(s) == Got(1);
      assert Fraction(t) == Exponent(t) == Got(0);
      assert t[0..] == t && Mantissa(s) == Got(1);
    }
  }

  /** Where a number may stand, its text is what the reader of numbers consumes. */
  lemma NumberStops(text: Bytes, rest: Bytes, lay: Layout)
    requires Separator(rest, lay)
    ensures DecimalNumber(text + rest) == Got(|text|) <==> IsNumber(text)
  {
    hide Numeral, Decode, IsNumber;
    NumeralLocal(text, rest);
    NumeralGrammar(text);
    assert (text + rest)[|text|..] == rest;
    StopIsRune(rest);
  }

  lemma NumberIsNext(text: Bytes, rest: Bytes)
    requires IsNumber(text) && Stop(rest)
    ensures NextToken(text + rest, false, false) == Kind(Decimal, DecimalNumber(text + rest))
  {
    hide Decode, DecimalNumber, NumericBase, IsNumber;
    NumberBegin(text);
    FirstTwo(text, rest);
  }

  /** Only the reader of numbers yields decimal numbers. */
  lemma OnlyNumbers(s: Bytes)
    ensures var l := NextToken(s, false, false); l.Lexeme? && l.id.Decimal? ==> DecimalNumber(s) == Got(l.n)
  {
    hide Decode, DecimalNumber, NumericBase, Comment, LineComment, Quote, RawScan, While, Reserved, Punctuation;
    PunctuationKind(Peek(s));
  }

  lemma PunctuationKind(p: Peeked)
    ensures p.Rune? && Punctuation(p.c).Some? ==> !Punctuation(p.c).value.Decimal?
  {}

  /**
    A text is read back as a decimal number, in every place where a layout may put it, exactly when it is
    one: a sign or none, digits with underscores, a fraction, an exponent.
   */
  lemma DecimalScans(text: Bytes, lay: Layout)
    ensures NumberScans(Decimal, text, lay) <==> IsNumber(text)
  {
    hide NextToken, DecimalNumber, IsNumber;
    var t := Tok(Decimal, text);
    if IsNumber(text) {
      NumberBegin(text);
      forall rest | Separator(rest, lay) ensures ScansAs(t, rest) {
        NumberStops(text, rest, lay);
        NumberIsNext(text, rest);
        }
    } else {
      var rest: Bytes := [0x20];
      assert Separator(rest, lay);
      NumberStops(text, rest, lay);
      OnlyNumbers(text + rest);
      assert !ScansAs(t, rest);
    }
  }

  /** The first two bytes of ASCII text, or of what follows it. */
  lemma FirstTwo(text: Bytes, rest: Bytes)
    requires text != [] && rest != [] && text[0] < 0x80 && rest[0] < 0x80 && (|text| > 1 ==> text[1] < 0x80)
    ensures var c := if |text| > 1 then text[1] else rest[0]; PeekTwo(text + rest) == Two(text[0], 1, c, 1)
    ensures Peek(text + rest) == Rune(text[0], 1)
  {
    hide Peek;
    var more := text[1..] + rest;
    assert text + rest == [text[0]] + more;
    TwoBytes(text[0], more);
  }

  lemma TwoBytes(c: byte, more: Bytes)
    requires more != [] && c < 0x80 && more[0] < 0x80
    ensures PeekTwo([c] + more) == Two(c, 1, more[0], 1) && Peek([c] + more) == Rune(c, 1)
  {
    hide Decode;
    AsciiAhead(c, more);
  }

  // ---------- Hexadecimal, octal and binary numbers ----------

  function RadixId(b: Radix): TokenID {
    match b
    case Base16 => Hexadecimal
    case Base8 => Octal
    case Base2 => Binary
  }

  function RadixLetter(b: Radix): byte {
    match b
    case Base16 => 'x' as int
    case Base8 => 'o' as int
    case Base2 => 'b' as int
  }

  /** A digit of the base, then digits and underscores. */
  predicate BasedDigits(b: Radix, ds: Bytes) {
    && ds != [] && RadixDigit(b, ds[0])
    && forall k | 0 <= k < |ds| :: BasedChar(b, 2, ds[k])
  }

  function BasedText(b: Radix, ds: Bytes): Bytes { ['0' as int, RadixLetter(b)] + ds }

  lemma {:induction false} BasedRun(b: Radix, s: Bytes, rest: Bytes, i: nat)
    requires (forall k | 0 <= k < |s| :: s[k] < 0x80 && BasedChar(b, i + k, s[k]))
    requires rest != [] && rest[0] < 0x80 && !BasedChar(b, i + |s|, rest[0])
    ensures RunLength(s + rest, i, Based(b)) == |s|
    decreases |s|
  {
    hide Decode, BasedChar;
    if s == [] {
      assert s + rest == rest;
    } else {
      assert s + rest == [s[0]] + (s[1..] + rest);
      AsciiAhead(s[0], s[1..] + rest);
      assert BasedChar(b, i + 0, s[0]);
      forall k | 0 <= k < |s| - 1 ensures s[1..][k] < 0x80 && BasedChar(b, i + 1 + k, s[1..][k]) {
        assert BasedChar(b, i + (k + 1), s[k + 1]);
      }
      BasedRun(b, s[1..], rest, i + 1);
    }
  }

  lemma BasedNumber(b: Radix, ds: Bytes, rest: Bytes)
    requires BasedDigits(b, ds) && rest != [] && (rest[0] == 0x20 || rest[0] == 0x0A || rest[0] == ';' as int)
    ensures NumericBase(BasedText(b, ds) + rest, b)
         == if rest[0] == ';' as int then Failed(BadCharacter) else Got(|ds| + 2)
  {
    hide Decode, RunLength;
    var text := BasedText(b, ds);
    assert forall k | 2 <= k < |text| :: text[k] == ds[k - 2];
    BasedRun(b, text, rest, 0);
    assert (text + rest)[|text|..] == rest;
    assert (text + rest)[2] == ds[0];
    assert rest == [rest[0]] + rest[1..];
    AsciiAhead(rest[0], rest[1..]);
  }

  /** In either version such a number is read before whitespace and refused before a semicolon. */
  lemma BasedNeedsSpace(b: Radix, ds: Bytes, rest: Bytes, v2: bool, start: bool)
    requires BasedDigits(b, ds) && rest != [] && (rest[0] == 0x20 || rest[0] == 0x0A || rest[0] == ';' as int)
    ensures NextToken(BasedText(b, ds) + rest, v2, start)
         == if rest[0] == ';' as int then NoLexeme(BadCharacter) else Lexeme(RadixId(b), |ds| + 2)
  {
    hide Decode, NumericBase, DecimalNumber, BasedDigits;
    BasedNumber(b, ds, rest);
    FirstTwo(BasedText(b, ds), rest);
  }

  /**
    A hexadecimal, octal or binary number is read back in every place where the layout may put it exactly
    when the layout writes no semicolons.
   */
  lemma BasedScans(b: Radix, ds: Bytes, lay: Layout)
    requires BasedDigits(b, ds)
    ensures NumberScans(RadixId(b), BasedText(b, ds), lay) <==> !lay.semicolons
  {
    hide NextToken, BasedDigits;
    var t := Tok(RadixId(b), BasedText(b, ds));
    forall rest | Separator(rest, lay) && rest[0] != ';' as int ensures ScansAs(t, rest) {
      BasedNeedsSpace(b, ds, rest, false, false);
    }
    if lay.semicolons {
      var rest: Bytes := [';' as int];
      BasedNeedsSpace(b, ds, rest, false, false);
      assert Separator(rest, lay) && !ScansAs(t, rest);
    }
  }

  // ---------- What can be scanned back ----------

  predicate NameScans(s: Bytes) { IsBareIdentifier(s, false) ==> NoBacktick(s) }

  predicate IsBased(b: Radix, text: Bytes) { |text| > 2 && text == BasedText(b, text[2..]) && BasedDigits(b, text[2..]) }

  /** A number as text, in the notation of its kind. */
  predicate IsNumberOf(id: TokenID, text: Bytes) {
    match id
    case Decimal => IsNumber(text)
    case Hexadecimal => IsBased(Base16, text)
    case Octal => IsBased(Base8, text)
    case Binary => IsBased(Base2, text)
    case _ => false
  }

  predicate ValueScans(v: Value) {
    match v
    case Num(id, text) => IsNumberOf(id, text)
    case Expr(_) => false
    case Special(_) => false
    case _ => true
  }

  /** An annotation is a bare identifier, or a quoted string with its quotes. */
  ghost predicate TypeScans(typ: Bytes) {
    || typ == []
    || (IsBareIdentifier(typ, false) && NoBacktick(typ) && !IsKeyword(typ))
    || (exists u :: typ == Quoted.Quote(u, Quoted.QUOTE))
  }

  ghost predicate EntryScans(e: Entry) {
    TypeScans(e.v.typ) && ValueScans(e.v.value) && (e.Prop? ==> NameScans(e.key))
  }

  ghost predicate NodeScans(n: SNode) {
    && NameScans(n.name) && TypeScans(n.typ)
    && (forall se | se in n.entries :: EntryScans(se.e))
    && (n.block.Block? ==> NodesScan(n.block.nodes))
  }

  ghost predicate NodesScan(ns: seq<SNode>) {
    forall n | n in ns :: NodeScans(n)
  }

  // ---------- What stops the scanner ----------

  /** A name the scanner gets past: in a quoted one only the replacement character stops it. */
  predicate NameClean(s: Bytes, separated: bool) { if IsBareIdentifier(s, false) then BareClean(s, separated) else NoRep(s) }

  /** A number that is not decimal may not be ended by a semicolon. */
  predicate ValueClean(v: Value, semicolon: bool) {
    match v
    case Str(s) => NoRep(s)
    case Num(id, _) => id.Decimal? || !semicolon
    case _ => true
  }

  ghost predicate TypeClean(typ: Bytes) {
    || typ == []
    || (if IsBareIdentifier(typ, false) then BareClean(typ, false) else exists u :: NoRep(u) && typ == Quoted.Quote(u, Quoted.QUOTE))
  }

  ghost predicate EntryClean(e: Entry, semicolon: bool) {
    TypeClean(e.v.typ) && ValueClean(e.v.value, semicolon) && (e.Prop? ==> NameClean(e.key, false))
  }

  /** The entries of a node, the last of them ended by a semicolon or not. */
  ghost predicate EntriesClean(es: seq<SEntry>, semicolon: bool) {
    es == [] || (EntryClean(es[0].e, semicolon && |es| == 1) && EntriesClean(es[1..], semicolon))
  }

  ghost predicate NodeClean(n: SNode, lay: Layout)
    decreases n, 1
  {
    && NameClean(n.name, true) && TypeClean(n.typ)
    && EntriesClean(n.entries, n.block.NoBlock? && lay.semicolons) && BlockClean(n, lay)
  }

  ghost predicate BlockClean(n: SNode, lay: Layout)
    decreases n, 0
  {
    n.block.Block? ==> NodesClean(n.block.nodes, lay)
  }

  /** No name, key, annotation or value of the written nodes, slashdashed or not, stops the scanner. */
  ghost predicate NodesClean(ns: seq<SNode>, lay: Layout)
    decreases ns, 2
  {
    ns == [] || (NodeClean(ns[0], lay) && NodesClean(ns[1..], lay))
  }

  // ---------- Tokens in their places ----------

  lemma NameReads(s: Bytes, rest: Bytes)
    requires NameScans(s) && Stop(rest)
    ensures ReadsAs(NameTok(s), rest, NameClean(s, rest[0] != '=' as int && rest[0] != ')' as int))
    ensures !NameTok(s).id.Whitespace? && Ink(NameTok(s).data + rest)
  {
    hide ReadsAs, Clean, NoRep, IsBareIdentifier, NoBacktick, Ink, BareClean;
    if IsBareIdentifier(s, false) {
      BareReads(s, rest);
    } else {
      QuotedReads(s, rest);
    }
  }

  lemma NumberReads(id: TokenID, text: Bytes, rest: Bytes, lay: Layout)
    requires IsNumberOf(id, text) && Separator(rest, lay)
    ensures ReadsAs(Tok(id, text), rest, id.Decimal? || !EndsNode(rest)) && Ink(text + rest)
  {
    hide NextToken, DecimalNumber, IsNumber, BasedDigits, ScanFrom, Ink;
    if id.Decimal? {
      NumberBegin(text);
      NumberStops(text, rest, lay);
      NumberIsNext(text, rest);
      ScansInk(Tok(id, text), rest);
    } else {
      var b := if id.Hexadecimal? then Base16 else if id.Octal? then Base8 else Base2;
      BasedNeedsSpace(b, text[2..], rest, false, false);
      FailsLater(text + rest);
      BasedInk(b, text[2..], rest);
    }
  }

  lemma BasedInk(b: Radix, ds: Bytes, rest: Bytes)
    ensures Ink(BasedText(b, ds) + rest)
  {
    hide Decode;
    assert (BasedText(b, ds) + rest)[0] == '0' as int;
  }

  lemma ValueReads(v: Value, rest: Bytes, lay: Layout)
    requires ValueScans(v) && Separator(rest, lay)
    ensures ReadsAs(ValTok(v), rest, ValueClean(v, EndsNode(rest))) && Ink(ValTok(v).data + rest)
  {
    hide ScansAs, Refused, NoRep, Ink, IsNumberOf;
    match v
    case Str(s) => QuotedReads(s, rest);
    case Num(id, text) => NumberReads(id, text, rest, lay);
    case Bool(b) => KeywordScans(if b then TRUE else FALSE, rest);
      KeywordsDiffer();
      ScansInk(ValTok(v), rest);
    case Nothing => KeywordScans(NULL, rest);
      KeywordsDiffer();
      ScansInk(ValTok(v), rest);
  }

  lemma KeywordsDiffer()
    ensures NULL != TRUE && NULL != FALSE
  {
    assert |NULL| == |TRUE| && NULL[0] != TRUE[0];
    assert |NULL| != |FALSE|;
  }

  lemma TypeReads(typ: Bytes, rest: Bytes)
    requires typ != [] && TypeScans(typ) && Stop(rest) && rest[0] == ')' as int
    ensures ReadsAs(TypeTok(typ), rest, TypeClean(typ))
  {
    hide NextToken, ScanFrom, Clean, NoRep, NoBacktick, AllIdentifierChars, Ink, IsNumber, SignDigit, RawStart;
    if IsBareIdentifier(typ, false) {
      BareNotQuote(typ);
      BareReads(typ, rest);
      if IsNumber(typ) {
        NumberBegins(typ);
      }
    } else {
      var u :| typ == Quoted.Quote(u, Quoted.QUOTE) && (TypeClean(typ) ==> NoRep(u));
      QuotedReads(u, rest);
    }
  }

  lemma BareNotQuote(s: Bytes)
    requires IsBareIdentifier(s, false)
    ensures s[0] != Quoted.QUOTE
    ensures forall u :: s != Quoted.Quote(u, Quoted.QUOTE)
  {}

  /** A token that is no whitespace, with or without an annotation before it. */
  lemma TypedReads(typ: Bytes, t: Token, rest: Bytes, good: bool)
    requires TypeScans(typ) && ReadsAs(t, rest, good) && Ink(t.data + rest)
    ensures var ts := TypeTokens(typ) + [t]; Reads(ts, rest, TypeClean(typ) && good) && Ink(Text(ts) + rest)
  {
    hide ScansAs, Refused, TypeScans, TypeClean, Ink, Text, Reads;
    ReadsOne(t, rest, good);
    TextOne(t);
    if typ == [] {
      assert TypeTokens(typ) + [t] == [t];
      NoType();
    } else {
      var more := [RPAREN] + [t];
      var all := [TypeTok(typ)] + more;
      TextCons(RPAREN, [t]);
      Fixed(Text([t]) + rest);
      ReadsCons(RPAREN, [t], rest, true, good);
      assert (Text(more) + rest)[0] == ')' as int;
      TypeReads(typ, Text(more) + rest);
      ReadsCons(TypeTok(typ), more, rest, TypeClean(typ), good);
      Fixed(Text(all) + rest);
      ReadsCons(LPAREN, all, rest, true, TypeClean(typ) && good);
      TextCons(LPAREN, all);
      ScansInk(LPAREN, Text(all) + rest);
      assert LPAREN.data + (Text(all) + rest) == (LPAREN.data + Text(all)) + rest;
      assert TypeTokens(typ) + [t] == [LPAREN] + all;
    }
  }

  lemma NoType()
    ensures TypeClean([])
  {}

  lemma EntryReads(e: Entry, rest: Bytes, lay: Layout)
    requires EntryScans(e) && Separator(rest, lay)
    ensures Reads(EntryTokens(e), rest, EntryClean(e, EndsNode(rest))) && Ink(Text(EntryTokens(e)) + rest)
  {
    hide ScansAs, Refused, TypeScans, ValueScans, NameScans, Ink, Text, Reads, NameTok, ValTok, TypeTokens;
    hide TypeClean, ValueClean, NameClean;
    ValueReads(e.v.value, rest, lay);
    TypedReads(e.v.typ, ValTok(e.v.value), rest, ValueClean(e.v.value, EndsNode(rest)));
    match e
    case Arg(v) =>
    case Prop(key, v) =>
      var value := TypeTokens(v.typ) + [ValTok(v.value)];
      var more := [EQUALS] + value;
      var good := TypeClean(v.typ) && ValueClean(v.value, EndsNode(rest));
      Fixed(Text(value) + rest);
      ReadsCons(EQUALS, value, rest, true, good);
      TextCons(EQUALS, value);
      assert (Text(more) + rest)[0] == '=' as int;
      NameReads(key, Text(more) + rest);
      ReadsCons(NameTok(key), more, rest, NameClean(key, false), good);
      TextCons(NameTok(key), more);
      assert NameTok(key).data + (Text(more) + rest) == (NameTok(key).data + Text(more)) + rest;
      assert [NameTok(key), EQUALS] + value == [NameTok(key)] + more;
  }

  /** A slashdash before tokens, or none. */
  lemma DashReads(dashed: bool, ts: seq<Token>, rest: Bytes, good: bool)
    requires Reads(ts, rest, good) && Ink(Text(ts) + rest)
    ensures Reads(DashTokens(dashed) + ts, rest, good) && Ink(Text(DashTokens(dashed) + ts) + rest)
  {
    hide ScansAs, Refused, Ink, Text, Reads;
    if dashed {
      SlashdashScans(Text(ts) + rest);
      ReadsCons(SLASHDASH, ts, rest, true, good);
      ScansInk(SLASHDASH, Text(ts) + rest);
      TextCons(SLASHDASH, ts);
      assert SLASHDASH.data + (Text(ts) + rest) == (SLASHDASH.data + Text(ts)) + rest;
    } else {
      assert [] + ts == ts;
    }
  }

  lemma SpaceReads(ts: seq<Token>, rest: Bytes, good: bool)
    requires Reads(ts, rest, good) && Ink(Text(ts) + rest)
    ensures Reads([SPACE] + ts, rest, good) && Text([SPACE] + ts) == [0x20] + Text(ts)
  {
    hide ScansAs, Refused, Ink, Text, Reads;
    BlankScans([0x20], Text(ts) + rest);
    ReadsCons(SPACE, ts, rest, true, good);
    TextCons(SPACE, ts);
  }

  lemma {:induction false} EntriesRead(es: seq<SEntry>, rest: Bytes, lay: Layout)
    requires (forall se | se in es :: EntryScans(se.e)) && Separator(rest, lay)
    ensures Reads(EntriesTokens(es), rest, EntriesClean(es, EndsNode(rest)))
    ensures var after := Text(EntriesTokens(es)) + rest;
            Separator(after, lay) && (EndsNode(after) <==> es == [] && EndsNode(rest))
    decreases |es|
  {
    hide ScansAs, EntryScans, EntryClean, Ink, Text, Reads, EntryTokens, DashTokens;
    if es == [] {
      NoTokens(rest);
    } else {
      var se, more, semicolon := es[0], EntriesTokens(es[1..]), EndsNode(rest) && |es| == 1;
      var entry := DashTokens(se.dashed) + EntryTokens(se.e);
      EntriesRead(es[1..], rest, lay);
      EntryReads(se.e, Text(more) + rest, lay);
      DashReads(se.dashed, EntryTokens(se.e), Text(more) + rest, EntryClean(se.e, semicolon));
      SpaceReads(entry, Text(more) + rest, EntryClean(se.e, semicolon));
      ReadsConcat([SPACE] + entry, more, rest, EntryClean(se.e, semicolon), EntriesClean(es[1..], EndsNode(rest)));
      TextConcat([SPACE] + entry, more);
    }
  }

  lemma NoTokens(rest: Bytes)
    ensures Reads([], rest, true) && Text([]) + rest == rest
  {
    assert [] + rest == rest;
  }

  lemma {:induction false} RepeatBlank(b: Bytes, n: nat)
    requires Blank(b)
    ensures Blank(Repeat(b, n)) && (b != [] && n > 0 ==> Repeat(b, n) != [])
  {
    if n > 0 {
      RepeatBlank(b, n - 1);
    }
  }

  /** Indentation before tokens that do not begin with whitespace. */
  lemma IndentReads(depth: nat, lay: Layout, ts: seq<Token>, rest: Bytes, good: bool)
    requires Blank(lay.indent) && Reads(ts, rest, good) && Ink(Text(ts) + rest)
    ensures Reads(IndentTokens(depth, lay) + ts, rest, good)
  {
    hide ScansAs, Refused, Ink, Text, Reads, Blank;
    if depth > 0 && lay.indent != [] {
      var blanks := Repeat(lay.indent, depth);
      RepeatBlank(lay.indent, depth);
      BlankScans(blanks, Text(ts) + rest);
      ReadsCons(Tok(Whitespace, blanks), ts, rest, true, good);
    } else {
      assert [] + ts == ts;
    }
  }

  lemma {:induction false} NodeReads(n: SNode, depth: nat, lay: Layout, rest: Bytes)
    requires NodeScans(n) && Blank(lay.indent)
    ensures Reads(NodeTokens(n, depth, lay), rest, NodeClean(n, lay))
    decreases n, 1
  {
    hide ReadsAs, Ink, Text, Reads, EntryScans, IndentTokens, DashTokens, TypeTokens, NameTok, EntriesTokens;
    hide BlockTokens, NameScans, TypeScans, Blank, NameClean, TypeClean, EntriesClean, BlockClean;
    var es, block := EntriesTokens(n.entries), BlockTokens(n, depth, lay);
    var name := TypeTokens(n.typ) + [NameTok(n.name)];
    var entries := EntriesClean(n.entries, n.block.NoBlock? && lay.semicolons);
    var last, first := entries && BlockClean(n, lay), TypeClean(n.typ) && NameClean(n.name, true);
    BlockReads(n, depth, lay, rest);
    EntriesRead(n.entries, Text(block) + rest, lay);
    ReadsConcat(es, block, rest, entries, BlockClean(n, lay));
    TextConcat(es, block);
    var after := Text(es + block) + rest;
    assert after == Text(es) + (Text(block) + rest);
    NameReads(n.name, after);
    TypedReads(n.typ, NameTok(n.name), after, NameClean(n.name, true));
    DashReads(n.dashed, name, after, first);
    IndentReads(depth, lay, DashTokens(n.dashed) + name, after, first);
    ReadsConcat(IndentTokens(depth, lay) + (DashTokens(n.dashed) + name), es + block, rest, first, last);
    assert IndentTokens(depth, lay) + DashTokens(n.dashed) + TypeTokens(n.typ) + [NameTok(n.name)]
        == IndentTokens(depth, lay) + (DashTokens(n.dashed) + name);
  }

  lemma LineReads(lay: Layout, rest: Bytes)
    ensures var ts := (if lay.semicolons then [SEMICOLON] else []) + [NEWLINE];
            Reads(ts, rest, true) && Separator(Text(ts) + rest, lay) && (EndsNode(Text(ts) + rest) <==> lay.semicolons)
  {
    hide ScansAs, Reads, Text;
    Fixed(rest);
    ReadsOne(NEWLINE, rest, true);
    TextOne(NEWLINE);
    if lay.semicolons {
      Fixed(Text([NEWLINE]) + rest);
      ReadsCons(SEMICOLON, [NEWLINE], rest, true, true);
      TextCons(SEMICOLON, [NEWLINE]);
    } else {
      assert [] + [NEWLINE] == [NEWLINE];
    }
  }

  /** A brace and the end of its line. */
  lemma BraceReads(t: Token, rest: Bytes)
    requires t == OPEN || t == CLOSE
    ensures Reads([t] + [NEWLINE], rest, true) && Ink(Text([t] + [NEWLINE]) + rest)
  {
    hide ScansAs, Reads, Text, Ink;
    Fixed(rest);
    ReadsOne(NEWLINE, rest, true);
    TextOne(NEWLINE);
    Fixed(Text([NEWLINE]) + rest);
    ReadsCons(t, [NEWLINE], rest, true, true);
    TextCons(t, [NEWLINE]);
    ScansInk(t, Text([NEWLINE]) + rest);
    assert t.data + (Text([NEWLINE]) + rest) == (t.data + Text([NEWLINE])) + rest;
  }

  lemma {:induction false} BlockReads(n: SNode, depth: nat, lay: Layout, rest: Bytes)
    requires (n.block.Block? ==> NodesScan(n.block.nodes)) && Blank(lay.indent)
    ensures Reads(BlockTokens(n, depth, lay), rest, BlockClean(n, lay))
    ensures var after := Text(BlockTokens(n, depth, lay)) + rest;
            Separator(after, lay) && (EndsNode(after) <==> n.block.NoBlock? && lay.semicolons)
    decreases n, 0
  {
    hide ScansAs, Ink, Text, Reads, NodesTokens, NodesClean, IndentTokens, DashTokens, Blank;
    match n.block
    case NoBlock => LineReads(lay, rest);
    case Block(dashed, nodes) =>
      var inside := NodesTokens(nodes, depth + 1, lay);
      var close := IndentTokens(depth, lay) + ([CLOSE] + [NEWLINE]);
      var brace := DashTokens(dashed) + ([OPEN] + [NEWLINE]);
      var good := NodesClean(nodes, lay);
      BraceReads(CLOSE, rest);
      IndentReads(depth, lay, [CLOSE] + [NEWLINE], rest, true);
      NodesRead(nodes, depth + 1, lay, Text(close) + rest);
      ReadsConcat(inside, close, rest, good, true);
      BraceReads(OPEN, Text(inside + close) + rest);
      DashReads(dashed, [OPEN] + [NEWLINE], Text(inside + close) + rest, true);
      SpaceReads(brace, Text(inside + close) + rest, true);
      ReadsConcat([SPACE] + brace, inside + close, rest, true, good);
      TextConcat([SPACE] + brace, inside + close);
      BlockGroups(n, depth, lay);
  }

  lemma BlockGroups(n: SNode, depth: nat, lay: Layout)
    requires n.block.Block?
    ensures BlockTokens(n, depth, lay)
         == ([SPACE] + (DashTokens(n.block.dashed) + ([OPEN] + [NEWLINE])))
            + (NodesTokens(n.block.nodes, depth + 1, lay) + (IndentTokens(depth, lay) + ([CLOSE] + [NEWLINE])))
  {
    hide NodesTokens, IndentTokens, DashTokens;
    assert [OPEN] + [NEWLINE] == [OPEN, NEWLINE] && [CLOSE] + [NEWLINE] == [CLOSE, NEWLINE];
    var dash, inside, indent := DashTokens(n.block.dashed), NodesTokens(n.block.nodes, depth + 1, lay), IndentTokens(depth, lay);
    assert [SPACE] + dash + [OPEN, NEWLINE] == [SPACE] + (dash + [OPEN, NEWLINE]);
    assert [SPACE] + dash + [OPEN, NEWLINE] + inside + (indent + [CLOSE, NEWLINE])
        == ([SPACE] + (dash + [OPEN, NEWLINE])) + (inside + (indent + [CLOSE, NEWLINE]));
  }

  lemma {:induction false} NodesRead(ns: seq<SNode>, depth: nat, lay: Layout, rest: Bytes)
    requires NodesScan(ns) && Blank(lay.indent)
    ensures Reads(NodesTokens(ns, depth, lay), rest, NodesClean(ns, lay))
    decreases ns, 2
  {
    hide Reads, Text, NodeTokens, NodeClean, Blank;
    if ns == [] {
      NoTokens(rest);
    } else {
      var more := NodesTokens(ns[1..], depth, lay);
      NodesRead(ns[1..], depth, lay, rest);
      NodeReads(ns[0], depth, lay, Text(more) + rest);
      ReadsConcat(NodeTokens(ns[0], depth, lay), more, rest, NodeClean(ns[0], lay), NodesClean(ns[1..], lay));
    }
  }

  // ---------- Whole documents ----------

  /** The document's first name is bare, begins with a byte order mark and has nothing in front of it. */
  predicate MarkFirst(ns: seq<SNode>) {
    ns != [] && !ns[0].dashed && ns[0].typ == [] && IsBareIdentifier(ns[0].name, false) && Next(ns[0].name, BOM)
  }

  /** What can be scanned, and does not begin with what the scanner drops at the beginning of its input. */
  ghost predicate DocumentScans(ns: seq<SNode>) { NodesScan(ns) && !MarkFirst(ns) }

  lemma NodeBegins(n: SNode, lay: Layout, more: Bytes)
    requires !MarkFirst([n]) && more != [] && more[0] < 0x80
    ensures !Next(Text(DashTokens(n.dashed) + (TypeTokens(n.typ) + [NameTok(n.name)])) + more, BOM)
  {
    hide Text, Peek, Quoted.EscapeAll, BareId, IsBareIdentifier;
    var ts := TypeTokens(n.typ) + [NameTok(n.name)];
    if n.dashed {
      TextCons(SLASHDASH, ts);
      AsciiBegins(Text([SLASHDASH] + ts) + more);
    } else {
      assert [] + ts == ts;
      if n.typ != [] {
        assert ts == [LPAREN] + ([TypeTok(n.typ), RPAREN] + [NameTok(n.name)]);
        TextCons(LPAREN, [TypeTok(n.typ), RPAREN] + [NameTok(n.name)]);
        AsciiBegins(Text(ts) + more);
      } else {
        assert ts == [NameTok(n.name)];
        TextOne(NameTok(n.name));
        if IsBareIdentifier(n.name, false) {
          NotEmpty(n.name);
          BomBefore(n.name, more);
        } else {
          AsciiBegins(Text(ts) + more);
        }
      }
    }
  }

  lemma AsciiBegins(s: Bytes)
    ensures s != [] && s[0] < 0x80 ==> !Next(s, BOM)
  {}

  lemma BomBefore(s: Bytes, more: Bytes)
    requires s != [] && more != [] && more[0] < 0x80 && !Next(s, BOM)
    ensures !Next(s + more, BOM)
  {
    hide Decode;
    if Peek(s + more).Rune? {
      RuneBefore(s, more);
    }
  }

  /** A document that may be scanned does not begin with a byte order mark. */
  lemma DocumentBegins(ns: seq<SNode>, lay: Layout)
    requires !MarkFirst(ns)
    ensures !Next(Text(NodesTokens(ns, 0, lay)), BOM)
  {
    hide Text, Peek, EntriesTokens, BlockTokens, NodeTokens, TypeTokens, NameTok, DashTokens;
    if ns == [] {
      AsciiBegins([]);
      NothingBegins();
    } else {
      var n := ns[0];
      var head := DashTokens(n.dashed) + (TypeTokens(n.typ) + [NameTok(n.name)]);
      var tail := EntriesTokens(n.entries) + BlockTokens(n, 0, lay) + NodesTokens(ns[1..], 0, lay);
      NodeHead(n, lay, NodesTokens(ns[1..], 0, lay));
      TextConcat(head, tail);
      TailBegins(n, lay, NodesTokens(ns[1..], 0, lay));
      NodeBegins(n, lay, Text(tail));
    }
  }

  lemma NothingBegins()
    ensures Text([]) == [] && !Next([], BOM)
  {}

  lemma NodeHead(n: SNode, lay: Layout, more: seq<Token>)
    ensures NodeTokens(n, 0, lay) + more
         == DashTokens(n.dashed) + (TypeTokens(n.typ) + [NameTok(n.name)])
            + (EntriesTokens(n.entries) + BlockTokens(n, 0, lay) + more)
  {
    hide EntriesTokens, BlockTokens, TypeTokens, NameTok, DashTokens;
    assert IndentTokens(0, lay) == [];
    assert [] + DashTokens(n.dashed) == DashTokens(n.dashed);
  }

  lemma TailBegins(n: SNode, lay: Layout, more: seq<Token>)
    ensures var t := Text(EntriesTokens(n.entries) + BlockTokens(n, 0, lay) + more); t != [] && t[0] < 0x80
  {
    hide EntryTokens, NodesTokens;
    var ts := EntriesTokens(n.entries) + BlockTokens(n, 0, lay) + more;
    assert ts != [] && (ts[0] == SPACE || ts[0] == NEWLINE || ts[0] == SEMICOLON);
    assert Text(ts) == ts[0].data + Text(ts[1..]);
  }

  /** Elsewhere than at a byte order mark the beginning of the input is a place like any other. */
  lemma BeginningIrrelevant(s: Bytes)
    requires !Next(s, BOM)
    ensures ScanFrom(s, false, true) == ScanFrom(s, false, false)
  {
    hide OtherToken, Peek;
  }

  /** At a byte order mark the input is scanned like the rest of it, after a token of whitespace. */
  lemma MarkDropped(s: Bytes, v2: bool)
    requires Next(s, BOM)
    ensures ScanFrom(s, v2, true) == Prepend([Lexed(Whitespace, s[..3])], ScanFrom(s[3..], v2, false))
  {
    hide OtherToken, ScanFrom;
    ScanStep(s, v2, true);
    if Peek(s).c == BOM {
      EncodeDecode(s);
    }
  }

  /**
    The version 1 scanner, on the text of a written document, returns exactly the document's tokens, or
    fails exactly when one of the document's texts stops it.
   */
  lemma TextReadBack(ns: seq<SNode>, lay: Layout)
    requires DocumentScans(ns) && Blank(lay.indent)
    ensures var ts, scan := NodesTokens(ns, 0, lay), ScanFrom(Text(NodesTokens(ns, 0, lay)), false, true);
            if NodesClean(ns, lay) then scan == Tokens(Lexemes(ts)) else scan.ScanFailed?
  {
    hide Readable, Broken, ScanFrom, MarkFirst, Peek;
    NodesRead(ns, 0, lay, []);
    DocumentBegins(ns, lay);
    BeginningIrrelevant(Text(NodesTokens(ns, 0, lay)));
    if NodesClean(ns, lay) {
      ReadableScans(NodesTokens(ns, 0, lay));
    } else {
      BrokenScans(NodesTokens(ns, 0, lay));
    }
  }

  /** Tokens with the kinds and bytes of a scan, wherever they stand. */
  lemma {:induction false} SameTokens(ts: seq<Token>, us: seq<Token>)
    requires Lexemes(ts) == Lexemes(us)
    ensures Driver.UnplaceAll(ts) == Driver.UnplaceAll(us)
  {
    if ts != [] {
      LexemesFirst(ts);
      LexemesFirst(us);
      SameTokens(ts[1..], us[1..]);
    }
  }

  lemma LexemesFirst(ts: seq<Token>)
    requires ts != []
    ensures Lexemes(ts) != [] && Lexemes(ts)[0] == Lexed(ts[0].id, ts[0].data) && Lexemes(ts)[1..] == Lexemes(ts[1..])
  {}

  /** Written tokens carry no position of their own. */
  predicate AtOrigin(ts: seq<Token>) { forall i | 0 <= i < |ts| :: ts[i].line == 0 && ts[i].column == 0 }

  lemma {:induction false} OriginUnplaced(ts: seq<Token>)
    requires AtOrigin(ts)
    ensures Driver.UnplaceAll(ts) == ts
  {
    if ts != [] {
      OriginUnplaced(ts[1..]);
      assert ts == [ts[0]] + ts[1..];
    }
  }

  lemma PiecesAtOrigin(e: Entry, dashed: bool, depth: nat, lay: Layout)
    ensures AtOrigin(EntryTokens(e)) && AtOrigin(DashTokens(dashed)) && AtOrigin(IndentTokens(depth, lay))
    ensures AtOrigin(TypeTokens(e.v.typ))
  {
    hide Quoted.Quote, IsBareIdentifier, Repeat, IsKeyword;
    var v, name := ValTok(e.v.value), if e.Prop? then NameTok(e.key) else SPACE;
    assert v.line == 0 && v.column == 0 && name.line == 0 && name.column == 0;
  }

  lemma {:induction false} EntriesAtOrigin(es: seq<SEntry>)
    ensures AtOrigin(EntriesTokens(es))
  {
    if es != [] {
      hide EntryTokens, DashTokens;
      PiecesAtOrigin(es[0].e, es[0].dashed, 0, Layout([], false));
      EntriesAtOrigin(es[1..]);
    }
  }

  lemma {:induction false} NodeAtOrigin(n: SNode, depth: nat, lay: Layout)
    ensures AtOrigin(NodeTokens(n, depth, lay))
    decreases n, 1
  {
    hide EntriesTokens, BlockTokens, DashTokens, IndentTokens, TypeTokens;
    PiecesAtOrigin(Arg(TValue(n.typ, Nothing)), n.dashed, depth, lay);
    EntriesAtOrigin(n.entries);
    BlockAtOrigin(n, depth, lay);
  }

  lemma {:induction false} BlockAtOrigin(n: SNode, depth: nat, lay: Layout)
    ensures AtOrigin(BlockTokens(n, depth, lay))
    decreases n, 0
  {
    hide NodesTokens, DashTokens, IndentTokens;
    if n.block.Block? {
      PiecesAtOrigin(Arg(TValue([], Nothing)), n.block.dashed, depth, lay);
      NodesAtOrigin(n.block.nodes, depth + 1, lay);
    }
  }

  lemma {:induction false} NodesAtOrigin(ns: seq<SNode>, depth: nat, lay: Layout)
    ensures AtOrigin(NodesTokens(ns, depth, lay))
    decreases ns, 2
  {
    hide NodeTokens;
    if ns != [] {
      NodeAtOrigin(ns[0], depth, lay);
      NodesAtOrigin(ns[1..], depth, lay);
    }
  }

  /**
    Version 1, end to end: the scan of the bytes printed for document trees succeeds, and parsing the
    tokens it returns, wherever it places them, yields the trees again, property order included, exactly
    when none of the texts stops the scanner and every name and string of the trees can be read back.
   */
  lemma PrintScanParse(trees: seq<Tree>, lay: Layout, ts: seq<Token>)
    requires forall t | t in trees :: RoundTrip.WellFormed(t)
    requires DocumentScans(RoundTrip.Source(trees)) && Blank(lay.indent)
    ensures var scan := ScanFrom(Text(NodesTokens(RoundTrip.Source(trees), 0, lay)), false, true);
            && (scan.Tokens? <==> NodesClean(RoundTrip.Source(trees), lay))
            && (scan.Tokens? && Lexemes(ts) == scan.ts ==>
                  var p := Driver.ParseAll(Machine.Context(Machine.Initial(V1), NO_TOKEN), ts);
                  RoundTrip.Returns(Driver.UnplaceResult(Machine.Result(p.c.s, p.o)), V1, trees))
  {
    hide ScanFrom, Text, NodesTokens, NodesClean, RoundTrip.WellFormed, RoundTrip.Returns, Driver.ParseAll;
    var printed := NodesTokens(RoundTrip.Source(trees), 0, lay);
    TextReadBack(RoundTrip.Source(trees), lay);
    if Lexemes(ts) == Lexemes(printed) {
      SameTokens(ts, printed);
      NodesAtOrigin(RoundTrip.Source(trees), 0, lay);
      OriginUnplaced(printed);
      Driver.ParsePrinted(V1, trees, lay, ts);
    }
  }
}
