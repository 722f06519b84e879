/** The character sets, names and escapes of the two notations, as their standards list them. */
module Notation {
  import opened Wrappers
  import opened Utf8
  import opened Tokens
  import opened Lookahead
  import opened Runes
  import opened Tokenize
  import opened Reading
  import opened TextScan
  import Multiline
  import Quoted
  import Triples

  // ---------- Characters ----------

  const NEWLINES: seq<rune> := [0x0D, 0x0A, 0x85, 0x0B, 0x0C, 0x2028, 0x2029]

  const SPACES: seq<rune> := [
    0x09, 0x20, 0xA0, 0x1680, 0x2000, 0x2001, 0x2002, 0x2003, 0x2004, 0x2005, 0x2006, 0x2007, 0x2008, 0x2009, 0x200A,
    0x202F, 0x205F, 0x3000]

  const DIRECTIONS: seq<rune> := [0x200E, 0x200F, 0x202A, 0x202B, 0x202C, 0x202D, 0x202E, 0x2066, 0x2067, 0x2068, 0x2069]

  /** What the characters of a bare identifier are not, besides blanks and control characters. */
  function Excluded(v2: bool): seq<rune> {
    if v2 then ['(' as int, ')' as int, '{' as int, '}' as int, '[' as int, ']' as int, '/' as int, '\\' as int,
                '\"' as int, '#' as int, ';' as int, '=' as int]
    else ['\\' as int, '/' as int, '(' as int, ')' as int, '{' as int, '}' as int, '<' as int, '>' as int, ';' as int,
          '[' as int, ']' as int, '=' as int, ',' as int, '\"' as int]
  }

  lemma CharacterSets(c: rune)
    ensures IsWhiteSpace(c) <==> c in SPACES
    ensures IsNewline(c) <==> c in NEWLINES
    ensures IsDisallowed(c) <==> c == 0x7F || c in DIRECTIONS
    ensures IsSpace(c) <==> c in SPACES || c in NEWLINES
  {}

  /** A character may stand in a bare identifier exactly when it is none of these; the first one is no digit. */
  lemma IdentifierCharacters(c: rune, v2: bool)
    ensures IsIdentifierChar(c, false, v2)
       <==> 0x20 <= c <= 0x10FFFF && c != 0x7F && c !in SPACES && c !in NEWLINES && c !in DIRECTIONS && c !in Excluded(v2)
    ensures IsIdentifierChar(c, true, v2) <==> IsIdentifierChar(c, false, v2) && !('0' as int <= c <= '9' as int)
  {
    CharacterSets(c);
    ExcludedMeaning(c, v2);
    hide IsWhiteSpace, IsNewline, IsDisallowed, Excluded;
  }

  lemma ExcludedMeaning(c: rune, v2: bool)
    ensures c in Excluded(v2)
       <==> IsPunctuation(c) || (if v2 then c == '#' as int else c == '<' as int || c == '>' as int || c == ',' as int)
  {}

  /** Every newline is one token, a carriage return with its line feed too. */
  lemma NewlineScans(c: rune, rest: Bytes, v2: bool, start: bool)
    requires c in NEWLINES
    ensures var n := Encode(c);
            NextToken(n + rest, v2, start)
            == Lexeme(Newline, if c == 0x0D && rest != [] && rest[0] == 0x0A then 2 else |n|)
  {
    DecodeEncode(c, rest);
    CharacterSets(c);
    hide IsWhiteSpace, RunLength, OtherToken;
    NoSpace(c);
    if c == 0x0D {
      assert (Encode(c) + rest)[1..] == rest;
    }
  }

  lemma NoSpace(c: rune)
    requires c in NEWLINES
    ensures !IsWhiteSpace(c) && c != BOM && (c != 0x0D ==> Punctuation(c) == Some(Newline))
  {}

  /** The tokens of one character. */
  datatype Sign = Sign(c: byte, id: TokenID)

  const SIGNS: seq<Sign> := [
    Sign('(' as int, ParensOpen), Sign(')' as int, ParensClose), Sign('{' as int, BraceOpen), Sign('}' as int, BraceClose),
    Sign('=' as int, Equals), Sign(';' as int, Semicolon), Sign('\\' as int, Continuation)]

  lemma SignsScan(i: nat, rest: Bytes, v2: bool, start: bool)
    requires i < |SIGNS|
    ensures NextToken([SIGNS[i].c] + rest, v2, start) == Lexeme(SIGNS[i].id, 1)
  {
    hide Decode, RunLength, OtherToken;
  }

  // ---------- Numbers ----------

  lemma {:induction false} BasedBytes(s: Bytes, i: nat, b: Radix)
    requires i >= 2
    ensures var n := RunLength(s, i, Based(b)); forall k | 0 <= k < n :: BasedChar(b, 2, s[k])
    decreases |s|
  {
    hide Decode;
    var p := Peek(s);
    if p.Rune? && BasedChar(b, i, p.c) {
      var t := s[p.size..];
      BasedBytes(t, i + 1, b);
      forall k | 0 <= k < RunLength(s, i, Based(b)) ensures BasedChar(b, 2, s[k]) {
        if k > 0 {
          assert s[k] == t[k - 1];
        }
      }
    }
  }

  /** After the prefix of a base nothing but a digit of it and more digits and underscores is read. */
  lemma BasedDigitsNeeded(b: Radix, t: Bytes, v2: bool, start: bool)
    ensures var s := BasedText(b, []) + t;
            var l := NextToken(s, v2, start);
            l.Lexeme? ==> l.id == RadixId(b) && l.n >= 3 && BasedDigits(b, s[2..l.n])
  {
    var s := BasedText(b, []) + t;
    assert s == ['0' as int] + ([RadixLetter(b)] + t);
    assert s[1..] == [RadixLetter(b)] + t && s[1..][1..] == t;
    PrefixNext(b, t, v2, start);
    hide NextToken, Decode;
    if NumericBase(s, b).Got? {
      PrefixRun(b, t);
      BasedBytes(t, 2, b);
      var n := NumericBase(s, b).n;
      assert s[2] == t[0];
      forall k | 0 <= k < n - 2 ensures BasedChar(b, 2, s[2..n][k]) {
        assert s[2..n][k] == t[k];
      }
    }
  }

  lemma PrefixNext(b: Radix, t: Bytes, v2: bool, start: bool)
    ensures var s := BasedText(b, []) + t; NextToken(s, v2, start) == Kind(RadixId(b), NumericBase(s, b))
  {
    hide Decode, NumericBase, DecimalNumber;
    var s := BasedText(b, []) + t;
    assert s == ['0' as int, RadixLetter(b)] + t && s[1..] == [RadixLetter(b)] + t;
  }

  lemma PrefixRun(b: Radix, t: Bytes)
    ensures RunLength(BasedText(b, []) + t, 0, Based(b)) == 2 + RunLength(t, 2, Based(b))
  {
    hide Decode;
    var s := BasedText(b, []) + t;
    assert s == ['0' as int, RadixLetter(b)] + t && s[1..] == [RadixLetter(b)] + t && s[1..][1..] == t;
  }

  // ---------- Names of version 2 ----------

  /** Spellings of other tokens: backtick, byte order mark, number, comma, dot and digit. */
  predicate OtherSpelling(s: Bytes) {
    || !NoBacktick(s) || Next(s, BOM) || SignDigit(s) || Next(s, ',' as int)
    || (Next(s, '.' as int) && Peek(s[1..]).Rune? && IsDigit(Peek(s[1..]).c))
  }

  const RESERVED: seq<Bytes> := [Ascii("true"), Ascii("false"), Ascii("null"), Ascii("inf"), Ascii("-inf"), Ascii("nan")]

  lemma ReservedMeaning(s: Bytes)
    ensures Reserved(s) <==> s in RESERVED
  {
    hide Ascii;
  }

  lemma KindUnlessReserved(s: Bytes)
    requires !Reserved(s)
    ensures BareKind(s) == BareIdentifier
  {
    hide Ascii;
  }

  lemma FirstIsPlain2(c: rune)
    requires IsIdentifierChar(c, true, true)
    ensures !IsWhiteSpace(c) && c != '\r' as int && Punctuation(c).None? && c != SLASH && c != HASH && !IsDigit(c)
    ensures c > 0x20 && c != Tokenize.QUOTE
  {}

  /** The reader of identifiers on such a name. */
  lemma BareIsRead2(s: Bytes, rest: Bytes)
    requires IsBareIdentifier(s, true) && Peek(s).Rune? && Stop(rest) && !SignDigit(s)
    ensures var l := Bare(s + rest, true);
            if Clean(s) && !Reserved(s) then l == Lexeme(BareIdentifier, |s|) else l.NoLexeme?
  {
    hide Clean, IsBareIdentifier, While, Decode, Reserved, BareKind;
    NameWhile(s, rest, true);
    FirstChar(s, true);
    SecondRune(s, rest);
    BadKinds(s[Peek(s).size..]);
    assert (s + rest)[..|s|] == s;
    if !Reserved(s) {
      KindUnlessReserved(s);
    }
    if Clean(s) {
      NotEmpty2(s);
      CleanBegins(s);
    }
  }

  lemma NotEmpty2(s: Bytes)
    requires IsBareIdentifier(s, true)
    ensures s != []
  {}

  lemma IdentifierIsBare2(s: Bytes, rest: Bytes)
    requires IsBareIdentifier(s, true) && Peek(s).Rune? && Stop(rest) && NoBacktick(s)
    ensures Identifier(s + rest, true) == Bare(s + rest, true)
  {
    hide IsBareIdentifier, Bare, Decode, IsIdentifierChar;
    FirstChar(s, true);
    FirstIsPlain2(Peek(s).c);
    SecondRune(s, rest);
  }

  lemma NextIsOther2(s: Bytes)
    requires Peek(s).Rune? && IsIdentifierChar(Peek(s).c, true, true)
    ensures NextToken(s, true, false) == if Peek(s).c == BOM then NoLexeme(BadCharacter) else OtherToken(s, true)
  {
    hide OtherToken, Peek, IsIdentifierChar, IsWhiteSpace, Punctuation;
    FirstIsPlain2(Peek(s).c);
  }

  /** Which reader a name goes to. */
  lemma OtherOfName2(s: Bytes, rest: Bytes)
    requires IsBareIdentifier(s, true) && Peek(s).Rune? && Stop(rest)
    ensures Peek(s + rest).Rune?
    ensures !Next(s, BOM) && !OtherSpelling(s) && !SignThenBad(s) ==> OtherToken(s + rest, true) == Identifier(s + rest, true)
    ensures SignThenBad(s) ==> OtherToken(s + rest, true).NoLexeme?
    ensures !Next(s, BOM) && OtherSpelling(s) && NoBacktick(s) ==>
              OtherToken(s + rest, true).NoLexeme? || OtherToken(s + rest, true).id.Decimal?
  {
    hide IsBareIdentifier, Identifier, Decode, DecimalNumber, IsIdentifierChar, ZeroToken, SlashToken, HashToken;
    FirstChar(s, true);
    FirstIsPlain2(Peek(s).c);
    SecondRune(s, rest);
    BadKinds(s[Peek(s).size..]);
  }

  lemma BacktickKind(s: Bytes)
    requires Next(s, Tokenize.BACKTICK)
    ensures var l := NextToken(s, true, false); l.Lexeme? ==> l.id.ExpressionString?
  {
    hide Quote, Decode;
  }

  lemma NothingNext2(s: Bytes)
    requires Peek(s).Bad?
    ensures NextToken(s, true, false).NoLexeme?
  {}

  /**
    In version 2 a bare name behind the beginning of the input is scanned as one identifier exactly when it
    can be decoded, is none of the words that need a number sign, and has a spelling of its own.
   */
  lemma NameScans2(s: Bytes, rest: Bytes)
    requires IsBareIdentifier(s, true) && Stop(rest)
    ensures NextToken(s + rest, true, false) == Lexeme(BareIdentifier, |s|)
       <==> Clean(s) && s !in RESERVED && !OtherSpelling(s)
  {
    hide Clean, IsBareIdentifier, OtherSpelling, SignThenBad, Bare, Identifier, Decode, OtherToken, NextToken, IsIdentifierChar;
    hide Reserved, RESERVED;
    NotEmpty2(s);
    PeekBefore(s, rest);
    ReservedMeaning(s);
    if Clean(s) {
      CleanBegins(s);
    }
    if Peek(s).Rune? {
      SpellingParts(s);
      FirstChar(s, true);
      SecondRune(s, rest);
      NextIsOther2(s + rest);
      OtherOfName2(s, rest);
      if NoBacktick(s) {
        IdentifierIsBare2(s, rest);
        if !OtherSpelling(s) {
          BareIsRead2(s, rest);
        }
      } else {
        BacktickKind(s + rest);
      }
    } else {
      NothingNext2(s + rest);
    }
  }

  lemma SpellingParts(s: Bytes)
    requires Peek(s).Rune?
    ensures !NoBacktick(s) || Next(s, BOM) || SignDigit(s) ==> OtherSpelling(s)
    ensures Next(s, BOM) <==> Peek(s).c == BOM
    ensures Next(s, Tokenize.BACKTICK) <==> !NoBacktick(s)
  {}

  // ---------- Escapes ----------

  /** A letter after a backslash and the character it stands for. */
  datatype Letter = Letter(c: byte, meaning: byte)

  const LETTERS: seq<Letter> := [
    Letter('n' as int, 0x0A), Letter('r' as int, 0x0D), Letter('t' as int, 0x09), Letter('b' as int, 0x08),
    Letter('f' as int, 0x0C), Letter('s' as int, 0x20), Letter('\\' as int, 0x5C), Letter('\"' as int, 0x22)]

  lemma LetterEscape(i: nat)
    requires i < |LETTERS|
    ensures var l := LETTERS[i];
            && Quoted.SimpleEscape(l.c, Quoted.QUOTE) == Some(l.meaning)
            && 0x20 < l.c < 0x80 && !Quoted.IsWhitespaceEscape(l.c)
  {}

  /** Each letter stands for its character, in quoted strings and in triple-quoted ones. */
  lemma LettersDecode(i: nat, t: Bytes, allow: bool)
    requires i < |LETTERS|
    ensures var s := [Quoted.BACKSLASH, LETTERS[i].c] + t;
            && Quoted.Unescape(s, Quoted.QUOTE) == Quoted.Prepend([LETTERS[i].meaning], Quoted.Unescape(t, Quoted.QUOTE))
            && Quoted.UnescapeContent(s, Quoted.QUOTE, allow)
               == Quoted.Prepend([LETTERS[i].meaning], Quoted.UnescapeContent(t, Quoted.QUOTE, allow))
  {
    LetterEscape(i);
    Triples.ShortEscape(LETTERS[i].c, t, allow);
    QuotedLetter(LETTERS[i].c, t);
    hide Quoted.Unescape, Quoted.UnescapeContent;
  }

  lemma QuotedLetter(c: byte, t: Bytes)
    requires c < 0x80 && !Quoted.IsWhitespaceEscape(c)
    ensures var m := Quoted.SimpleEscape(c, Quoted.QUOTE);
            m.Some? ==> Quoted.Unescape([Quoted.BACKSLASH, c] + t, Quoted.QUOTE)
                        == Quoted.Prepend([m.value], Quoted.Unescape(t, Quoted.QUOTE))
  {
    hide Quoted.SpaceRun, Quoted.BraceEscape;
    var s := [Quoted.BACKSLASH, c] + t;
    assert s[2..] == t;
  }

  /** Any other character is refused, but for a slash in quoted strings, blanks and the letter u. */
  lemma OthersRefused(c: byte, t: Bytes, allow: bool)
    requires 0x20 < c < 0x80 && c != 'u' as int && forall i | 0 <= i < |LETTERS| :: LETTERS[i].c != c
    ensures var s := [Quoted.BACKSLASH, c] + t;
            && Quoted.Unescape(s, Quoted.QUOTE)
               == (if c == '/' as int then Quoted.Prepend([c], Quoted.Unescape(t, Quoted.QUOTE)) else None)
            && Quoted.UnescapeContent(s, Quoted.QUOTE, allow) == None
  {
    hide Quoted.SpaceRun, Quoted.BraceEscape;
    var s := [Quoted.BACKSLASH, c] + t;
    NoLetter(c);
    assert s[2..] == t && s[1..][0] == c;
  }

  lemma NoLetter(c: byte)
    requires forall i | 0 <= i < |LETTERS| :: LETTERS[i].c != c
    ensures Quoted.SimpleEscape(c, Quoted.QUOTE).None?
  {
    assert LETTERS[0].c != c && LETTERS[1].c != c && LETTERS[2].c != c && LETTERS[3].c != c;
    assert LETTERS[4].c != c && LETTERS[5].c != c && LETTERS[6].c != c && LETTERS[7].c != c;
  }

  lemma {:induction false} SpaceRunOf(w: Bytes, t: Bytes)
    requires Multiline.AllSpace(w) && (t == [] || !IsSpace(Decode(t).r))
    ensures Quoted.SpaceRun(w + t) == |w|
    decreases |w|
  {
    hide Decode, IsSpace;
    if w == [] {
      assert w + t == t;
    } else {
      FirstSpace(w, t);
      var n := Decode(w).size;
      assert (w + t)[n..] == w[n..] + t;
      SpaceRunOf(w[n..], t);
    }
  }

  lemma FirstSpace(w: Bytes, t: Bytes)
    requires w != [] && Multiline.AllSpace(w)
    ensures Decode(w + t) == Decode(w)
  {
    Multiline.AllSpaceValid(w);
    DecodeLocal(w, |w|, t);
    assert w[..|w|] == w;
  }

  /** A backslash drops all the blanks after it. */
  lemma BlanksDropped(w: Bytes, t: Bytes, allow: bool)
    requires w != [] && Quoted.IsWhitespaceEscape(w[0]) && Multiline.AllSpace(w) && (t == [] || !IsSpace(Decode(t).r))
    ensures var s := [Quoted.BACKSLASH] + w + t;
            && Quoted.Unescape(s, Quoted.QUOTE) == Quoted.Unescape(t, Quoted.QUOTE)
            && Quoted.UnescapeContent(s, Quoted.QUOTE, allow) == Quoted.UnescapeContent(t, Quoted.QUOTE, allow)
  {
    var s := [Quoted.BACKSLASH] + w + t;
    assert s[1..] == w + t && s[1] == w[0] && s[1 + |w|..] == t;
    SpaceRunOf(w, t);
    FirstSpace(w, t);
    assert Decode(w).r == w[0] && IsSpace(w[0]);
    hide Decode, IsSpace, Quoted.BraceEscape, Quoted.SpaceRun;
    Multiline.PrependNothing(Quoted.Unescape(t, Quoted.QUOTE));
    Multiline.PrependNothing(Quoted.UnescapeContent(t, Quoted.QUOTE, allow));
  }

  /** A control character is written with its number, in one or two hexadecimal digits. */
  lemma HexMeaning(c: byte)
    ensures Quoted.HexValue(Quoted.Hex(c)) == c && |Quoted.Hex(c)| == if c < 16 then 1 else 2
  {
    var h := Quoted.Hex(c);
    assert h[..|h| - 1] == if c < 16 then [] else [h[0]];
    assert [h[0]][..0] == [];
    assert Quoted.HexValue([]) == 0 && Quoted.HexValue([h[0]]) == Quoted.HexVal(h[0]);
  }

  // ---------- Continued lines of text ----------

  lemma {:induction false} LastBackslash(line: Bytes)
    requires Multiline.HasLineContinuation(line)
    ensures exists k :: 0 <= k < |line| && line[k] == Quoted.BACKSLASH && Multiline.AllSpace(line[k + 1..])
    decreases |line|
  {
    hide Decode, DecodeLast, IsSpace;
    var d := DecodeLast(line);
    var n := |line| - d.size;
    LastIsRune(line);
    if IsSpace(d.r) {
      LastBackslash(line[..n]);
      var k :| 0 <= k < n && line[..n][k] == Quoted.BACKSLASH && Multiline.AllSpace(line[..n][k + 1..]);
      assert line[k + 1..] == line[..n][k + 1..] + line[n..];
      Multiline.AllSpaceConcat(line[..n][k + 1..], line[n..]);
      assert line[k] == Quoted.BACKSLASH;
    } else {
      assert line[n + 1..] == [];
      assert line[n] == Quoted.BACKSLASH && Multiline.AllSpace(line[n + 1..]);
    }
  }

  lemma LastIsRune(line: Bytes)
    requires line != []
    ensures var d := DecodeLast(line);
            var n := |line| - d.size;
            && (IsSpace(d.r) ==> Multiline.AllSpace(line[n..]))
            && (d.r == Quoted.BACKSLASH ==> d.size == 1 && line[n] == Quoted.BACKSLASH)
  {
    var d := DecodeLast(line);
    var n := |line| - d.size;
    if IsSpace(d.r) {
      assert line[n..][d.size..] == [];
    }
  }

  /** A line is continued exactly when it holds a backslash and only blanks after it. */
  lemma ContinuedMeans(line: Bytes)
    ensures Multiline.HasLineContinuation(line)
       <==> exists k :: 0 <= k < |line| && line[k] == Quoted.BACKSLASH && Multiline.AllSpace(line[k + 1..])
  {
    if Multiline.HasLineContinuation(line) {
      LastBackslash(line);
    }
    forall k | 0 <= k < |line| && line[k] == Quoted.BACKSLASH && Multiline.AllSpace(line[k + 1..])
      ensures Multiline.HasLineContinuation(line)
    {
      var a := line[..k + 1];
      assert line == a + line[k + 1..] && a[|a| - 1] == Quoted.BACKSLASH;
      Multiline.ContinuationBeforeSpace(a, line[k + 1..]);
    }
  }
}
