/** The tokens of version 2 that begin with a number sign: keywords and raw strings. */
module HashTokens {
  import opened Wrappers
  import opened Utf8
  import opened Tokens
  import opened Document
  import opened Lookahead
  import opened Tokenize
  import opened Reading
  import Runes
  import Multiline
  import Quoted
  import Raw

  // ---------- Keywords ----------

  /** The words of the notation, each with its kind and what it stands for. */
  datatype Word2 = Word2(text: Bytes, id: TokenID, value: Value)

  const WORDS: seq<Word2> := [
    Word2(Ascii("#true"), Boolean, Bool(true)),
    Word2(Ascii("#false"), Boolean, Bool(false)),
    Word2(Ascii("#null"), Null, Nothing),
    Word2(Ascii("#inf"), Keyword, Special(Ascii("#inf"))),
    Word2(Ascii("#-inf"), Keyword, Special(Ascii("#-inf"))),
    Word2(Ascii("#nan"), Keyword, Special(Ascii("#nan")))]

  /** A word is read exactly where it stands in full. */
  lemma {:induction false} WordReads(s: Bytes, w: Bytes)
    requires forall i | 0 <= i < |w| :: w[i] < 0x80
    ensures Word(s, w).Got? <==> w <= s
    ensures Word(s, w).Got? ==> Word(s, w).n == |w|
    decreases |w|
  {
    hide Decode;
    if w != [] && s != [] && Peek(s).Rune? && Peek(s).c == w[0] {
      WordReads(s[1..], w[1..]);
      assert w == [w[0]] + w[1..] && s == [s[0]] + s[1..];
    }
  }

  /** The text begins with a number sign, and neither with a quote nor another number sign after it. */
  predicate WordAhead(s: Bytes) { |s| > 1 && s[0] == '#' as int && s[1] != '#' as int && s[1] != Quoted.QUOTE }

  lemma TwoBytes(s: Bytes)
    requires |s| > 1 && s[0] < 0x80 && s[1] < 0x80
    ensures PeekTwo(s) == Two(s[0], 1, s[1], 1)
  {
    hide Decode;
  }

  lemma SecondRune(s: Bytes)
    requires s != [] && s[0] < 0x80
    ensures PeekTwo(s).Two? ==> PeekTwo(s).c1 == s[0] && (PeekTwo(s).c2 < 0x80 ==> |s| > 1 && s[1] == PeekTwo(s).c2)
  {
    hide Decode;
  }

  /** The keyword reader after the number sign, word by word. */
  lemma KeywordOf(s: Bytes)
    ensures var l := KeywordToken(s);
            l == if Ascii("true") <= s then Lexeme(Boolean, 4)
                 else if Ascii("false") <= s then Lexeme(Boolean, 5)
                 else if Ascii("null") <= s then Lexeme(Null, 4)
                 else if Ascii("nan") <= s then Lexeme(Keyword, 3)
                 else if Ascii("inf") <= s then Lexeme(Keyword, 3)
                 else if Ascii("-inf") <= s then Lexeme(Keyword, 4)
                 else NoLexeme(if l.NoLexeme? then l.e else BadCharacter)
  {
    hide Decode, Peek, PeekTwo, Word;
    WordReads(s, Ascii("true"));
    WordReads(s, Ascii("false"));
    WordReads(s, Ascii("null"));
    WordReads(s, Ascii("nan"));
    WordReads(s, Ascii("inf"));
    WordReads(s, Ascii("-inf"));
    FirstOf(s, Ascii("true"));
    FirstOf(s, Ascii("false"));
    FirstOf(s, Ascii("null"));
    FirstOf(s, Ascii("nan"));
    FirstOf(s, Ascii("inf"));
    FirstOf(s, Ascii("-inf"));
    if s != [] && s[0] < 0x80 {
      SecondRune(s);
    }
  }

  lemma FirstOf(s: Bytes, w: Bytes)
    requires |w| > 1 && w[0] < 0x80 && w[1] < 0x80
    ensures w <= s ==> Next(s, w[0]) && |s| > 1 && s[1] == w[1] && PeekTwo(s) == Two(w[0], 1, w[1], 1)
    ensures Next(s, w[0]) ==> s != [] && s[0] == w[0]
  {
    if w <= s {
      assert s[0] == w[0] && s[1] == w[1];
      TwoBytes(s);
    }
    hide Decode;
  }

  lemma HashAhead(s: Bytes, start: bool)
    requires s != [] && s[0] == '#' as int
    ensures NextToken(s, true, start) == var l := HashRest(s[1..]); if l.Lexeme? then Lexeme(l.id, 1 + l.n) else l
  {
    hide HashRest, Decode;
  }

  lemma Sharp(s: Bytes, text: Bytes)
    requires s != [] && text != [] && s[0] == text[0]
    ensures text <= s <==> text[1..] <= s[1..]
  {
    assert s == [s[0]] + s[1..] && text == [s[0]] + text[1..];
  }

  /** The word without its number sign. */
  function Letters(i: nat): Bytes
    requires i < |WORDS|
  {
    if WORDS[i].text == [] then [] else WORDS[i].text[1..]
  }

  lemma Tails()
    ensures Letters(0) == Ascii("true") && Letters(1) == Ascii("false") && Letters(2) == Ascii("null")
    ensures Letters(3) == Ascii("inf") && Letters(4) == Ascii("-inf") && Letters(5) == Ascii("nan")
  {}

  /** Two bytes after the number sign tell the words apart. */
  lemma WordsDiffer()
    ensures forall i | 0 <= i < |WORDS| :: |WORDS[i].text| > 2 && WORDS[i].text[0] == '#' as int
    ensures forall i, j | 0 <= i < j < |WORDS| ::
              WORDS[i].text[1] != WORDS[j].text[1] || WORDS[i].text[2] != WORDS[j].text[2]
  {}

  lemma SharpWords(s: Bytes)
    requires s != [] && s[0] == '#' as int
    ensures forall i | 0 <= i < |WORDS| :: WORDS[i].text <= s <==> Letters(i) <= s[1..]
    ensures forall i, j | 0 <= i < |WORDS| && 0 <= j < |WORDS| && WORDS[i].text <= s && WORDS[j].text <= s :: i == j
  {
    WordsDiffer();
    hide Ascii;
    forall i | 0 <= i < |WORDS|
      ensures WORDS[i].text <= s <==> Letters(i) <= s[1..]
      ensures WORDS[i].text <= s ==> |s| > 2 && s[1] == WORDS[i].text[1] && s[2] == WORDS[i].text[2]
    {
      Sharp(s, WORDS[i].text);
    }
  }

  lemma NoStringAhead(s: Bytes)
    requires WordAhead(s)
    ensures HashRest(s[1..]).Lexeme? || KeywordToken(s[1..]).Lexeme? ==> HashRest(s[1..]) == KeywordToken(s[1..])
  {
    var t := s[1..];
    assert t[0] == s[1];
    KeywordOf(t);
    hide KeywordToken, HashStringToken, Decode;
    if KeywordToken(t).Lexeme? {
      KeywordStart(t);
    }
  }

  lemma KeywordStart(s: Bytes)
    requires s != [] && KeywordToken(s).Lexeme?
    ensures Peek(s).Rune?
  {
    hide Decode;
  }

  /** The reader's choice as a choice from the table. */
  lemma KeywordTable(s: Bytes)
    requires forall i, j | 0 <= i < |WORDS| && 0 <= j < |WORDS| && Letters(i) <= s && Letters(j) <= s :: i == j
    ensures var l := KeywordToken(s);
            && (forall i | 0 <= i < |WORDS| && Letters(i) <= s :: l == Lexeme(WORDS[i].id, |WORDS[i].text| - 1))
            && (l.Lexeme? ==> exists i :: 0 <= i < |WORDS| && Letters(i) <= s)
  {
    KeywordOf(s);
    Tails();
    hide KeywordToken, Ascii, Letters;
  }

  /** Where text after a number sign is no raw string, it is scanned exactly when one of the words stands there. */
  lemma KeywordScans(s: Bytes, start: bool)
    requires WordAhead(s)
    ensures var l := NextToken(s, true, start);
            && (forall i | 0 <= i < |WORDS| && WORDS[i].text <= s :: l == Lexeme(WORDS[i].id, |WORDS[i].text|))
            && (l.Lexeme? ==> exists i :: 0 <= i < |WORDS| && WORDS[i].text <= s)
  {
    hide KeywordToken, HashRest, NextToken;
    SharpWords(s);
    HashAhead(s, start);
    NoStringAhead(s);
    KeywordTable(s[1..]);
  }

  /** Each of them decodes to what it stands for. */
  lemma KeywordDecodes(i: nat, line: int, column: int)
    requires i < |WORDS|
    ensures ValueFromToken(Token(WORDS[i].id, WORDS[i].text, line, column)) == Some(WORDS[i].value)
  {
    assert Ascii("#false")[1] != Ascii("#true")[1] && Ascii("#false")[0] != TRUE[0];
  }

  // ---------- Raw strings ----------

  /** No newline character. */
  predicate OneLine(s: Bytes)
    decreases |s|
  {
    s == [] || (!Runes.IsNewline(Decode(s).r) && OneLine(s[Decode(s).size..]))
  }

  /** The runes of the first n bytes can be decoded, and none is a newline. */
  predicate LineTo(s: Bytes, n: int)
    decreases |s|
  {
    n <= 0 || (Peek(s).Rune? && !Runes.IsNewline(Peek(s).c) && LineTo(s[Peek(s).size..], n - Peek(s).size))
  }

  lemma {:induction false} LineIsClean(s: Bytes, n: int)
    requires LineTo(s, n)
    ensures CleanTo(s, n)
    decreases |s|
  {
    hide Peek;
    if n > 0 {
      LineIsClean(s[Peek(s).size..], n - Peek(s).size);
    }
  }

  /** The version 2 reader differs from the version 1 reader in stopping at a newline only. */
  lemma LineStep(s: Bytes, h: nat)
    requires Peek(s).Rune?
    ensures RawContent(s, h, true) == if Closes(s, h) then Got(1 + h)
                                      else if Runes.IsNewline(Peek(s).c) then Failed(BadCharacter)
                                      else Plus(Front(s, h), RawContent(s[Front(s, h)..], h, true))
    ensures Front(s, h) <= |s|
  {
    hide Decode, HashRun;
    var p := Peek(s);
    if p.c == Tokenize.QUOTE {
      assert s[1..][HashRun(s[1..], h)..] == s[Front(s, h)..];
    }
  }

  lemma {:induction false} PastHashes(s: Bytes, k: nat, n: int)
    requires k <= |s| && forall i | 0 <= i < k :: s[i] == '#' as int
    ensures k <= n ==> (LineTo(s, n) <==> LineTo(s[k..], n - k))
    decreases k
  {
    hide Peek, LineTo;
    if k == 0 {
      assert s[0..] == s;
    } else {
      var t := s[1..];
      assert t[k - 1..] == s[k..];
      assert forall i | 0 <= i < k - 1 :: t[i] == s[i + 1];
      PastHashes(t, k - 1, n - 1);
      if n > 0 {
        LineByte(s, n);
      }
    }
  }

  lemma LineByte(s: Bytes, n: int)
    requires s != [] && s[0] < 0x80 && !Runes.IsNewline(s[0]) && n > 0
    ensures LineTo(s, n) <==> LineTo(s[1..], n - 1)
  {
    hide Decode;
  }

  lemma LineOverFront(s: Bytes, h: nat, n: int)
    requires Peek(s).Rune? && Front(s, h) <= |s| && n >= Front(s, h)
    ensures LineTo(s, n) <==> !Runes.IsNewline(Peek(s).c) && LineTo(s[Front(s, h)..], n - Front(s, h))
  {
    hide Decode;
    var p := Peek(s);
    if p.c == Tokenize.QUOTE {
      HashRunAll(s[1..], h);
      PastHashes(s[1..], HashRun(s[1..], h), n - 1);
      assert s[1..][HashRun(s[1..], h)..] == s[Front(s, h)..];
    }
  }

  lemma LineQuote(s: Bytes, h: nat)
    requires Peek(s).Rune? && Closes(s, h)
    ensures LineTo(s, 1)
  {}

  lemma RawBad2(s: Bytes, h: nat)
    ensures Peek(s).Bad? ==> RawContent(s, h, true).Failed?
  {}

  lemma {:induction false} RawOnLine(s: Bytes, h: nat, n: nat)
    ensures RawContent(s, h, true) == Got(n) <==> RawContent(s, h, false) == Got(n) && n >= h && LineTo(s, n - h)
    decreases |s|
  {
    hide Peek, RawContent, Front, Closes, HashRun, LineTo;
    RawBad(s, h);
    RawBad2(s, h);
    if Peek(s).Rune? {
      FrontStep(s, h);
      LineStep(s, h);
      if Closes(s, h) {
        LineQuote(s, h);
      } else {
        var k := Front(s, h);
        if n >= k {
          RawOnLine(s[k..], h, n - k);
        }
        if n >= k + h {
          LineOverFront(s, h, n - h);
        }
      }
    }
  }

  lemma {:induction false} LineMeaning(s: Bytes, t: Bytes)
    requires t != [] && t[0] == Quoted.QUOTE
    ensures LineTo(s + t, |s| + 1) <==> Clean(s) && OneLine(s)
    decreases |s|
  {
    hide Decode, Peek;
    if s == [] {
      assert s + t == t;
      QuoteByte(t);
    } else if Peek(s + t).Rune? {
      RuneBefore(s, t);
      PeekSizes(s);
      PeekIsDecode(s);
      var n := Peek(s).size;
      assert (s + t)[n..] == s[n..] + t;
      LineMeaning(s[n..], t);
    } else if Peek(s).Rune? {
      PeekPrefix(s, t);
    }
  }

  lemma QuoteByte(t: Bytes)
    requires t != [] && t[0] == Quoted.QUOTE
    ensures LineTo(t, 1)
  {}

  /** With the quote before it, the string would begin with three quotes. */
  predicate OpensTriple(s: Bytes) {
    s == [Quoted.QUOTE] || (|s| >= 2 && s[0] == Quoted.QUOTE && s[1] == Quoted.QUOTE)
  }

  lemma ThriceBytes(s: Bytes)
    ensures Thrice(s, Tokenize.QUOTE) <==> |s| >= 3 && s[0] == s[1] == s[2] == Quoted.QUOTE
  {
    hide Decode;
    if |s| >= 3 {
      assert s[1..][0] == s[1] && s[2..][0] == s[2];
    }
  }

  lemma {:induction false} HashesOf(h: nat, t: Bytes)
    requires t != [] && t[0] == Quoted.QUOTE
    ensures Tokenize.Hashes(Multiline.Hashes(h) + t) == h
  {
    hide Decode;
    var u := Multiline.Hashes(h) + t;
    if h > 0 {
      assert u[0] == Multiline.HASH && u[1..] == Multiline.Hashes(h - 1) + t;
      HashesOf(h - 1, t);
    } else {
      assert u == t;
    }
  }

  /** From the first number sign to the content. */
  lemma HashOpens(h: nat, t: Bytes, start: bool)
    requires h >= 1 && t != [] && t[0] == Quoted.QUOTE
    ensures var r := HashString(t, h);
            NextToken(Multiline.Hashes(h) + t, true, start)
            == if r.Failed? then NoLexeme(r.e)
               else Lexeme(if Thrice(t, Tokenize.QUOTE) then QuotedString else RawString, h + r.n)
  {
    hide HashString, Thrice, Decode, Tokenize.Hashes;
    var s := Multiline.Hashes(h) + t;
    var u := Multiline.Hashes(h - 1) + t;
    assert s[0] == '#' as int && s[1..] == u && u[h - 1..] == t;
    assert u[0] == if h == 1 then Quoted.QUOTE else Multiline.HASH;
    HashesOf(h - 1, t);
    HashAhead(s, start);
  }

  /**
    A version 2 raw string of one or more number signs, whatever follows it, is scanned as one raw string
    exactly when it can be decoded, stands on one line, does not contain its own closing sequence and does not
    begin like a triple-quoted one.  Its token stands for the string.
   */
  lemma HashStringReadBack(s: Bytes, h: nat, rest: Bytes, start: bool)
    requires h >= 1
    ensures var q := Raw.HashQuote(s, h);
            && (NextToken(q + rest, true, start) == Lexeme(RawString, |q|)
                <==> Clean(s) && OneLine(s) && !Raw.ContainsTerminator(s, h) && !OpensTriple(s))
            && Raw.UnquoteRaw(q) == Some((s, h)) && ValueFromToken(Token(RawString, q, 0, 0)) == Some(Str(s))
  {
    hide NextToken, RawContent, Clean, OneLine, HashString, Thrice, ValueFromToken, Raw.ContainsTerminator, OpensTriple;
    var q := Raw.HashQuote(s, h);
    var t := After(s, h, rest);
    assert q + rest == Multiline.Hashes(h) + ([Quoted.QUOTE] + t);
    HashDecodes(s, h);
    HashOpens(h, [Quoted.QUOTE] + t, start);
    ThriceBytes([Quoted.QUOTE] + t);
    TripleOpening(s, h, rest);
    OneQuote(t, h);
    HashContent(s, h, rest);
  }

  /** What follows the opening quote. */
  function After(s: Bytes, h: nat, rest: Bytes): Bytes { s + [Quoted.QUOTE] + Multiline.Hashes(h) + rest }

  lemma OneQuote(t: Bytes, h: nat)
    ensures var u := [Quoted.QUOTE] + t; !Thrice(u, Tokenize.QUOTE) ==> HashString(u, h) == Plus(1, RawContent(t, h, true))
  {
    hide RawContent, Decode, MultiLine, Thrice;
    assert ([Quoted.QUOTE] + t)[1..] == t;
  }

  lemma HashDecodes(s: Bytes, h: nat)
    requires h >= 1
    ensures var q := Raw.HashQuote(s, h);
            Raw.UnquoteRaw(q) == Some((s, h)) && ValueFromToken(Token(RawString, q, 0, 0)) == Some(Str(s))
  {
    Raw.HashUnquotes(s, h);
    hide Raw.UnquoteRaw, Raw.HashQuote;
  }

  lemma HashContent(s: Bytes, h: nat, rest: Bytes)
    ensures RawContent(After(s, h, rest), h, true) == Got(|s| + 1 + h)
       <==> Clean(s) && OneLine(s) && !Raw.ContainsTerminator(s, h)
  {
    hide RawContent, Clean, OneLine, LineTo, CleanTo, Raw.ContainsTerminator;
    var t, n := After(s, h, rest), |s| + 1 + h;
    var close := [Quoted.QUOTE] + Multiline.Hashes(h) + rest;
    assert t == s + close;
    RawOnLine(t, h, n);
    LineMeaning(s, close);
    Raw.RawStopsAtEnd(s, h, rest);
    RawReaderStops(t, h);
    if LineTo(t, |s| + 1) {
      LineIsClean(t, |s| + 1);
      if !Raw.ContainsTerminator(s, h) {
        RawReaderArrives(t, h, n);
      }
    }
  }

  lemma TripleOpening(s: Bytes, h: nat, rest: Bytes)
    requires h >= 1
    ensures var u := [Quoted.QUOTE] + (s + [Quoted.QUOTE] + Multiline.Hashes(h) + rest);
            OpensTriple(s) <==> |u| >= 3 && u[0] == u[1] == u[2] == Quoted.QUOTE
  {
    var u := [Quoted.QUOTE] + (s + [Quoted.QUOTE] + Multiline.Hashes(h) + rest);
    if s == [] {
      assert u[2] == Multiline.HASH;
    } else {
      assert u[1] == s[0] && u[2] == if |s| == 1 then Quoted.QUOTE else s[1];
    }
  }
}
