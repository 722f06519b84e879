/** Triple-quoted strings from their text: the scanner reads what was written, and decoding gives it back. */
module TripleScans {
  import opened Wrappers
  import opened Utf8
  import opened Tokens
  import opened Lookahead
  import opened Tokenize
  import opened Reading
  import Document
  import HashTokens
  import Lexemes
  import Multiline
  import Quoted
  import Triples

  /** The reader inside a string without number signs. */
  function Inner(s: Bytes): Scan { MultiLineContent(s, Tokenize.QUOTE, 0) }

  // ---------- The opening line ----------

  predicate Blank(s: Bytes) { forall i | 0 <= i < |s| :: s[i] == 0x20 || s[i] == 0x09 }

  predicate AtNewline(s: Bytes) { s != [] && (s[0] == 0x0A || s[0] == 0x0D) }

  lemma {:induction false} OpeningRead(o: Bytes, s: Bytes)
    requires Blank(o) && AtNewline(s)
    ensures OpeningLine(o + s) == Got(|o|)
    decreases |o|
  {
    hide Decode;
    if o == [] {
      assert o + s == s;
    } else {
      assert (o + s)[1..] == o[1..] + s;
      OpeningRead(o[1..], s);
    }
  }

  lemma MultiLineRead(o: Bytes, s: Bytes, h: nat, q: byte)
    requires Blank(o) && AtNewline(s) && Lexemes.IsQuote(q)
    ensures MultiLine([q, q, q] + o + s, q, h) == Plus(3 + |o|, MultiLineContent(s, q, h))
  {
    hide MultiLineContent, OpeningLine, Decode;
    var t := [q, q, q] + o + s;
    assert t == [q, q, q] + (o + s);
    ThreeRunes(o + s, q);
    OpeningRead(o, s);
    assert t[3..] == o + s && t[3 + |o|..] == s;
  }

  lemma ThreeRunes(s: Bytes, q: byte)
    requires q < 0x80
    ensures Several([q, q, q] + s, 3) == Got(3) && ([q, q, q] + s)[3..] == s
  {
    hide Decode;
    var t := [q, q, q] + s;
    var a, b := t[1..], t[1..][1..];
    assert a[0] == b[0] == q && b[1..] == s;
    assert Several(s, 0) == Got(0);
    assert Several(b, 1) == Got(1);
    assert Several(a, 2) == Got(2);
  }

  /** Three quotes, blanks and the end of the line begin a token that ends where the content does. */
  lemma TripleToken(o: Bytes, s: Bytes, n: nat, start: bool)
    requires Blank(o) && AtNewline(s)
    ensures NextToken(Multiline.TRIPLE + o + s, true, start) == Lexeme(QuotedString, 3 + |o| + n)
       <==> Lexemes.EndsTriple(s, n, Quoted.QUOTE)
  {
    hide MultiLineContent, Lexemes.EndsTriple, MultiLine, NextToken;
    MultiLineRead(o, s, 0, Quoted.QUOTE);
    Lexemes.TripleEnds(s, n, Quoted.QUOTE);
    assert Multiline.TRIPLE + o + s == Multiline.TRIPLE + (o + s);
    TripleNext(o + s, start);
  }

  lemma TripleNext(s: Bytes, start: bool)
    ensures var t := Multiline.TRIPLE + s;
            NextToken(t, true, start) == Kind(QuotedString, MultiLine(t, Tokenize.QUOTE, 0))
  {
    hide MultiLine, Decode, Thrice;
    HashTokens.ThriceBytes(Multiline.TRIPLE + s);
  }

  /** With backticks, in either version. */
  lemma BacktickToken(o: Bytes, s: Bytes, n: nat, v2: bool, start: bool)
    requires Blank(o) && AtNewline(s)
    ensures NextToken(Document.TRIPLE_BACKTICK + o + s, v2, start) == Lexeme(ExpressionString, 3 + |o| + n)
       <==> Lexemes.EndsTriple(s, n, Document.BACKTICK)
  {
    hide MultiLineContent, Lexemes.EndsTriple, MultiLine, NextToken;
    MultiLineRead(o, s, 0, Document.BACKTICK);
    Lexemes.TripleEnds(s, n, Document.BACKTICK);
    assert Document.TRIPLE_BACKTICK + o + s == Document.TRIPLE_BACKTICK + (o + s);
    BacktickNext(o + s, v2, start);
  }

  lemma BacktickNext(s: Bytes, v2: bool, start: bool)
    ensures var t := Document.TRIPLE_BACKTICK + s;
            NextToken(t, v2, start) == Kind(ExpressionString, MultiLine(t, Tokenize.BACKTICK, 0))
  {
    hide MultiLine, Decode, Thrice;
    assert Thrice(Document.TRIPLE_BACKTICK + s, Tokenize.BACKTICK) by { ThreeTimes(s); }
  }

  lemma ThreeTimes(s: Bytes)
    ensures Thrice(Document.TRIPLE_BACKTICK + s, Tokenize.BACKTICK)
  {
    hide Decode;
    var t := Document.TRIPLE_BACKTICK + s;
    assert t[1..][0] == t[2..][0] == Tokenize.BACKTICK;
  }

  /** The same with number signs. */
  lemma RawTripleToken(o: Bytes, s: Bytes, h: nat, n: nat, start: bool)
    requires Blank(o) && AtNewline(s) && h >= 1
    ensures NextToken(Multiline.Hashes(h) + (Multiline.TRIPLE + o + s), true, start) == Lexeme(QuotedString, h + 3 + |o| + n)
       <==> Lexemes.EndsRaw(s, n, h)
  {
    hide MultiLineContent, Lexemes.EndsRaw, MultiLine, NextToken, Thrice;
    var t := Multiline.TRIPLE + o + s;
    MultiLineRead(o, s, h, Quoted.QUOTE);
    Lexemes.RawTripleEnds(s, n, h);
    HashTokens.ThriceBytes(t);
    HashTokens.HashOpens(h, t, start);
    HashTriple(t, h);
  }

  lemma HashTriple(t: Bytes, h: nat)
    requires Thrice(t, Tokenize.QUOTE)
    ensures HashString(t, h) == MultiLine(t, Tokenize.QUOTE, h)
  {
    hide MultiLine, Decode;
  }

  // ---------- Written content ----------

  /** A byte that stands for itself. */
  lemma PassByte(c: byte, t: Bytes)
    requires c < 0x80 && c != Quoted.QUOTE && c != Quoted.BACKSLASH
    ensures Inner([c] + t) == Plus(1, Inner(t))
  {
    hide Peek;
    AsciiAhead(c, t);
  }

  lemma PassPair(c: byte, t: Bytes)
    requires c < 0x80
    ensures Inner([Quoted.BACKSLASH, c] + t) == Plus(2, Inner(t))
  {
    hide Peek;
    var s := [Quoted.BACKSLASH, c] + t;
    assert s == [Quoted.BACKSLASH] + ([c] + t);
    AsciiAhead(Quoted.BACKSLASH, [c] + t);
    AsciiAhead(c, t);
    assert s[1..] == [c] + t && ([c] + t)[1..] == t;
  }

  lemma PassRune(s: Bytes, t: Bytes)
    requires Peek(s).Rune? && Peek(s).size == |s| && Peek(s).c >= 0x80
    ensures Inner(s + t) == Plus(|s|, Inner(t))
  {
    hide Peek;
    PeekPrefix(s, t);
    assert (s + t)[|s|..] == t;
  }

  lemma PassReplaced(t: Bytes)
    ensures Inner(Quoted.REPLACEMENT_TEXT + t) == Plus(6, Inner(t))
  {
    hide Inner, Peek;
    var d := ['d' as int] + t;
    var fd := ['f' as int] + d;
    var ffd := ['f' as int] + fd;
    var fffd := ['f' as int] + ffd;
    assert Quoted.REPLACEMENT_TEXT + t == [Quoted.BACKSLASH, 'u' as int] + fffd;
    PassPair('u' as int, fffd);
    PassByte('f' as int, ffd);
    PassByte('f' as int, fd);
    PassByte('f' as int, d);
    PassByte('d' as int, t);
  }

  lemma PassHex(c: byte, t: Bytes)
    requires c < 0x80
    ensures var e := [Quoted.BACKSLASH, 'u' as int] + Quoted.Hex(c); Inner(e + t) == Plus(|e|, Inner(t))
  {
    hide Inner, Peek;
    var h := Quoted.Hex(c);
    assert [Quoted.BACKSLASH, 'u' as int] + h + t == [Quoted.BACKSLASH, 'u' as int] + (h + t);
    PassPair('u' as int, h + t);
    if |h| == 1 {
      PassByte(h[0], t);
      assert h == [h[0]];
    } else {
      assert h + t == [h[0]] + ([h[1]] + t);
      PassByte(h[0], [h[1]] + t);
      PassByte(h[1], t);
    }
  }

  /** However a character is written, the reader passes it. */
  lemma PassFirst(s: Bytes, t: Bytes)
    requires s != [] && Decode(s) != REPLACEMENT
    ensures var e := Quoted.EscapeFirst(s, Quoted.QUOTE); Inner(e + t) == Plus(|e|, Inner(t))
  {
    hide Inner;
    var e := Quoted.EscapeFirst(s, Quoted.QUOTE);
    var c := s[0];
    if Decode(s) == INVALID {
      PassReplaced(t);
    } else if c >= 0x80 {
      LongFirst(s);
      PassRune(e, t);
    } else if Quoted.NoEscape(c) {
      PassByte(c, t);
    } else if |e| == 2 {
      assert e == [e[0], e[1]];
      PassPair(e[1], t);
    } else {
      PassHex(c, t);
    }
  }

  lemma PassNot(s: Bytes)
    requires Peek(s) == Bad(InvalidRune)
    ensures Inner(s) == Failed(InvalidRune)
  {}

  /** Written characters are passed, up to a replacement character. */
  lemma {:induction false} PassEscaped(s: Bytes, t: Bytes)
    ensures var e := Quoted.EscapeAll(s, Quoted.QUOTE);
            Inner(e + t) == if NoRep(s) then Plus(|e|, Inner(t)) else Failed(InvalidRune)
    decreases |s|
  {
    hide Inner, Quoted.EscapeFirst, Decode, Peek;
    var e := Quoted.EscapeAll(s, Quoted.QUOTE);
    if s == [] {
      assert e + t == t;
    } else {
      var k := Decode(s).size;
      var first, more := Quoted.EscapeFirst(s, Quoted.QUOTE), Quoted.EscapeAll(s[k..], Quoted.QUOTE);
      assert e + t == first + (more + t);
      if Decode(s) == REPLACEMENT {
        RepAhead(s, more + t);
        PassNot(e + t);
      } else {
        PassFirst(s, more + t);
        PassEscaped(s[k..], t);
      }
    }
  }

  lemma SpaceRune(w: Bytes)
    requires w != [] && Multiline.AllSpace(w)
    ensures var p := Peek(w);
            && p.Rune? && p.c != BACKSLASH && p.c != Tokenize.QUOTE && Multiline.AllSpace(w[p.size..])
  {
    Multiline.AllSpaceValid(w);
  }

  lemma {:induction false} PassSpaces(w: Bytes, t: Bytes)
    requires Multiline.AllSpace(w)
    ensures Inner(w + t) == Plus(|w|, Inner(t))
    decreases |w|
  {
    hide Peek, Multiline.AllSpace;
    if w == [] {
      assert w + t == t;
    } else {
      SpaceRune(w);
      PeekSizes(w);
      PeekPrefix(w, t);
      var n := Peek(w).size;
      assert (w + t)[n..] == w[n..] + t;
      PassSpaces(w[n..], t);
    }
  }

  lemma {:induction false} NoRepConcat(a: Bytes, b: Bytes)
    requires b == [] || b[0] < 0x80
    ensures NoRep(a + b) <==> NoRep(a) && NoRep(b)
    decreases |a|
  {
    hide Decode;
    if a == [] {
      assert a + b == b;
    } else {
      var n := Decode(a).size;
      Triples.DecodeBeforeByte(a, b);
      assert (a + b)[n..] == a[n..] + b;
      NoRepConcat(a[n..], b);
    }
  }

  lemma PassNewline(newline: Bytes, t: Bytes)
    requires newline == [] || newline in {[Multiline.LF], [Multiline.CR], [Multiline.CR, Multiline.LF]}
    ensures Inner(newline + t) == Plus(|newline|, Inner(t)) && (NoRep(newline + t) <==> NoRep(t))
  {
    hide Inner, NoRep;
    if newline == [] {
      assert newline + t == t;
    } else if |newline| == 1 {
      PassByte(newline[0], t);
      NoRepByte(newline[0], t);
    } else {
      assert newline + t == [Multiline.CR] + ([Multiline.LF] + t);
      PassByte(Multiline.CR, [Multiline.LF] + t);
      PassByte(Multiline.LF, t);
      NoRepByte(Multiline.CR, [Multiline.LF] + t);
      NoRepByte(Multiline.LF, t);
    }
  }

  lemma NoRepByte(c: byte, t: Bytes)
    requires c < 0x80
    ensures NoRep([c] + t) <==> NoRep(t)
  {
    hide Decode;
    assert ([c] + t)[1..] == t;
  }

  lemma NoRepLines(t: Bytes)
    requires t != []
    ensures var p := Multiline.FirstLine(t); NoRep(t) <==> NoRep(p.line) && NoRep(p.rest)
  {
    hide NoRep, Inner, Multiline.FirstLine;
    var p := Multiline.FirstLine(t);
    if p.newline != [] {
      Multiline.FirstNewlineShape(t);
    }
    assert t == p.line + (p.newline + p.rest);
    NoRepConcat(p.line, p.newline + p.rest);
    PassNewline(p.newline, p.rest);
  }

  /** One line: indentation, text and newline. */
  lemma PassLine(line: Bytes, newline: Bytes, w: Bytes, t: Bytes)
    requires Multiline.AllSpace(w) && NewlineOrEnd(newline)
    ensures var e := Quoted.EscapeAll(line, Quoted.QUOTE);
            var x := (if e == [] then [] else w + e) + newline;
            Inner(x + t) == if NoRep(line) then Plus(|x|, Inner(t)) else Failed(InvalidRune)
  {
    hide Inner, NoRep, Multiline.AllSpace, Quoted.EscapeAll;
    var e := Quoted.EscapeAll(line, Quoted.QUOTE);
    var more := newline + t;
    PassNewline(newline, t);
    PassEscaped(line, more);
    if e == [] {
      assert [] + newline + t == more && e + more == more;
      EmptyLine(line);
    } else {
      PassSpaces(w, e + more);
      assert w + e + newline + t == w + (e + more);
    }
  }

  predicate NewlineOrEnd(newline: Bytes) {
    newline == [] || newline in {[Multiline.LF], [Multiline.CR], [Multiline.CR, Multiline.LF]}
  }

  lemma EmptyLine(line: Bytes)
    requires Quoted.EscapeAll(line, Quoted.QUOTE) == []
    ensures NoRep(line)
  {
    Triples.EscapedLine(line);
  }

  /** The whole content. */
  lemma {:induction false} PassWritten(t: Bytes, w: Bytes, rest: Bytes)
    requires Multiline.InlineSpace(w)
    ensures var x := Triples.Written(t, w);
            Inner(x + rest) == if NoRep(t) then Plus(|x|, Inner(rest)) else Failed(InvalidRune)
    decreases |t|
  {
    hide Inner, NoRep, Multiline.AllSpace, Quoted.EscapeAll, Multiline.FirstLine, Triples.Written;
    if t == [] {
      Triples.ReturnWritten(w);
      assert [] + rest == rest;
      NothingToReplace();
    } else {
      var p := Multiline.FirstLine(t);
      var e := Quoted.EscapeAll(p.line, Quoted.QUOTE);
      var x := (if e == [] then [] else w + e) + p.newline;
      var more := Triples.Written(p.rest, w);
      if p.newline != [] {
        Multiline.FirstNewlineShape(t);
      }
      Triples.WrittenLine(t, w);
      PassWritten(p.rest, w, rest);
      PassLine(p.line, p.newline, w, more + rest);
      NoRepLines(t);
      assert Triples.Written(t, w) + rest == x + (more + rest);
    }
  }

  lemma NothingToReplace()
    ensures NoRep([])
  {}

  lemma ClosingQuotes(rest: Bytes)
    ensures Inner(Multiline.TRIPLE + rest) == Got(3)
  {
    hide Decode;
    var t := Multiline.TRIPLE + rest;
    assert t[1..][0] == Tokenize.QUOTE && t[1..][1..][0] == Tokenize.QUOTE;
  }

  /**
    A token of escaped, indented lines, whatever follows it, is scanned up to its closing quotes exactly when
    the text holds no replacement character.
   */
  lemma TripleQuoteScans(t: Bytes, w: Bytes, rest: Bytes, start: bool)
    requires Multiline.InlineSpace(w)
    ensures var q := Triples.TripleQuote(t, w);
            NextToken(q + rest, true, start) == Lexeme(QuotedString, |q|) <==> NoRep(t)
  {
    hide MultiLineContent, NoRep, Multiline.AllSpace, Triples.Written, NextToken, MultiLine;
    var q := Triples.TripleQuote(t, w);
    var end := Multiline.TRIPLE + rest;
    var x := Triples.Written(t, w);
    var tail := [Multiline.LF] + (w + end);
    var s := [Multiline.LF] + (x + tail);
    assert q + rest == Multiline.TRIPLE + [] + s == Multiline.TRIPLE + s;
    assert |q| == 3 + 1 + |x| + 1 + |w| + 3;
    TripleNext(s, start);
    MultiLineRead([], s, 0, Quoted.QUOTE);
    PassByte(Multiline.LF, x + tail);
    PassWritten(t, w, tail);
    PassByte(Multiline.LF, w + end);
    PassSpaces(w, end);
    ClosingQuotes(rest);
  }

  /** Scanned and decoded, such a text comes back exactly when nothing in it gets lost on the way. */
  lemma TripleReadBack(t: Bytes, w: Bytes, rest: Bytes, start: bool)
    requires Multiline.InlineSpace(w)
    ensures var q := Triples.TripleQuote(t, w);
            NextToken(q + rest, true, start) == Lexeme(QuotedString, |q|)
            && Document.ValueFromToken(Token(QuotedString, q, 0, 0)) == Some(Document.Str(t))
            <==> NoRep(t) && Quoted.Quotable(t) && !Multiline.FinalCR(t) && Triples.Stays(Triples.EscapeLines(t), w, false)
  {
    hide NextToken, Document.ValueFromToken, NoRep, Quoted.Quotable, Triples.Stays, Triples.TripleQuote, Multiline.InlineSpace;
    TripleQuoteScans(t, w, rest, start);
    Triples.TripleRoundTrip(t, w);
  }
}
