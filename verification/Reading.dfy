/**
  The tokenizer on text written by the printers: raw strings end at the first closing sequence, and
  quoted strings exactly at their final quote.
 */
module Reading {
  import opened Wrappers
  import opened Utf8
  import opened Tokens
  import opened Lookahead
  import opened Tokenize
  import Runes
  import Multiline
  import Quoted
  import Raw

  /** Valid UTF-8 without the replacement character. */
  predicate Clean(s: Bytes)
    decreases |s|
  {
    s == [] || (Peek(s).Rune? && Clean(s[Peek(s).size..]))
  }

  /** A rune is the same whatever follows it. */
  lemma PeekPrefix(s: Bytes, rest: Bytes)
    requires Peek(s).Rune?
    ensures Peek(s + rest) == Peek(s)
  {
    WindowSound(s, s + rest);
  }

  lemma PeekSizes(s: Bytes)
    ensures Peek(s).Rune? ==> 1 <= Peek(s).size <= |s|
  {}

  // ---------- Raw strings ----------

  lemma {:induction false} HashRunAll(s: Bytes, h: nat)
    ensures forall i | 0 <= i < HashRun(s, h) :: s[i] == '#' as int
    ensures HashRun(s, h) == h <==> h <= |s| && s[..h] == Multiline.Hashes(h)
    decreases h
  {
    if h > 0 {
      assert h <= |s| ==> s[0] == s[..h][0];
      if Next(s, HASH) {
        HashRunAll(s[1..], h - 1);
        assert forall i | 1 <= i < HashRun(s, h) :: s[i] == s[1..][i - 1];
        if h <= |s| {
          assert s[..h] == [s[0]] + s[1..][..h - 1];
          assert Multiline.Hashes(h) == [Multiline.HASH] + Multiline.Hashes(h - 1);
          assert s[..h][1..] == s[1..][..h - 1] && Multiline.Hashes(h)[1..] == Multiline.Hashes(h - 1);
        }
      }
    }
  }

  lemma TerminatorShift(s: Bytes, n: nat, i: nat, h: nat)
    requires n <= |s|
    ensures Raw.TerminatorAt(s[n..], i, h) <==> Raw.TerminatorAt(s, n + i, h)
  {
    if n + i + 1 + h <= |s| {
      assert s[n..][i + 1..i + 1 + h] == s[n + i + 1..n + i + 1 + h];
    }
  }

  /** A prefix without closing sequences does not move the first one. */
  lemma RawEndShift(s: Bytes, n: nat, h: nat, end: int)
    requires n <= |s| && Raw.RawEnd(s[n..], h, end)
    requires forall i | 0 <= i < n :: !Raw.TerminatorAt(s, i, h)
    ensures Raw.RawEnd(s, h, n + end)
  {
    TerminatorShift(s, n, end - 1 - h, h);
    forall i | n <= i < n + end - 1 - h
      ensures !Raw.TerminatorAt(s, i, h)
    {
      TerminatorShift(s, n, i - n, h);
    }
  }

  /** The front of a raw string: a quote with its number signs, at most h, or another rune. */
  function Front(s: Bytes, h: nat): nat
    requires Peek(s).Rune?
  {
    var p := Peek(s);
    p.size + if p.c == Tokenize.QUOTE then HashRun(s[1..], h) else 0
  }

  predicate Closes(s: Bytes, h: nat)
    requires Peek(s).Rune?
  {
    Peek(s).c == Tokenize.QUOTE && HashRun(s[1..], h) == h
  }

  /** The front holds no closing sequence, or is one, or is followed by the rest. */
  lemma FrontStep(s: Bytes, h: nat)
    requires Peek(s).Rune?
    ensures 1 <= Front(s, h) <= |s|
    ensures RawContent(s, h, false) == if Closes(s, h) then Got(1 + h)
                                       else Plus(Front(s, h), RawContent(s[Front(s, h)..], h, false))
  {
    hide Decode, HashRun;
    var p := Peek(s);
    if p.c == Tokenize.QUOTE {
      assert s[1..][HashRun(s[1..], h)..] == s[Front(s, h)..];
    }
  }

  lemma FrontTerminators(s: Bytes, h: nat)
    requires Peek(s).Rune?
    ensures if Closes(s, h) then Raw.TerminatorAt(s, 0, h)
            else forall i | 0 <= i < Front(s, h) :: !Raw.TerminatorAt(s, i, h)
  {
    var p := Peek(s);
    if p.c == Tokenize.QUOTE {
      HashRunAll(s[1..], h);
      if 1 + h <= |s| {
        assert s[1..][..h] == s[1..1 + h];
      }
      forall i | 1 <= i < Front(s, h) ensures !Raw.TerminatorAt(s, i, h) {
        assert s[i] == s[1..][i - 1];
      }
    } else if p.size > 1 {
      MultiByte(s);
    }
  }

  lemma RawBad(s: Bytes, h: nat)
    ensures Peek(s).Bad? ==> RawContent(s, h, false).Failed?
  {}

  /** What the version 1 reader consumes ends with the first closing sequence. */
  lemma {:induction false} RawReaderStops(s: Bytes, h: nat)
    ensures RawContent(s, h, false).Got? ==> Raw.RawEnd(s, h, RawContent(s, h, false).n)
    decreases |s|
  {
    hide Peek, RawContent, Front, Closes;
    RawBad(s, h);
    if Peek(s).Rune? {
      FrontStep(s, h);
      FrontTerminators(s, h);
      if !Closes(s, h) {
        var n := Front(s, h);
        RawReaderStops(s[n..], h);
        if RawContent(s[n..], h, false).Got? {
          RawEndShift(s, n, h, RawContent(s[n..], h, false).n);
        }
      }
    }
  }

  /** The runes of the first n bytes can all be decoded. */
  predicate CleanTo(s: Bytes, n: int)
    decreases |s|
  {
    n <= 0 || (Peek(s).Rune? && CleanTo(s[Peek(s).size..], n - Peek(s).size))
  }

  lemma CleanFirst(s: Bytes, n: int)
    requires CleanTo(s, n) && n > 0
    ensures Peek(s).Rune?
  {}

  lemma CleanPastFront(s: Bytes, h: nat, n: int)
    requires CleanTo(s, n) && n > 0
    ensures Front(s, h) <= |s| && CleanTo(s[Front(s, h)..], n - Front(s, h))
  {
    hide Decode;
    var p := Peek(s);
    if p.c == Tokenize.QUOTE {
      HashRunAll(s[1..], h);
      CleanPastHashes(s[1..], HashRun(s[1..], h), n - 1);
      assert s[1..][HashRun(s[1..], h)..] == s[Front(s, h)..];
    }
  }

  /** Number signs are decodable. */
  lemma {:induction false} CleanPastHashes(s: Bytes, k: nat, n: int)
    requires k <= |s| && forall i | 0 <= i < k :: s[i] == '#' as int
    ensures k <= n ==> (CleanTo(s, n) <==> CleanTo(s[k..], n - k))
    decreases k
  {
    hide Peek, CleanTo;
    if k == 0 {
      assert s[0..] == s;
    } else {
      var t := s[1..];
      assert t[k - 1..] == s[k..];
      assert forall i | 0 <= i < k - 1 :: t[i] == s[i + 1];
      CleanPastHashes(t, k - 1, n - 1);
      if n > 0 {
        CleanByte(s, n);
      }
    }
  }

  lemma CleanByte(s: Bytes, n: int)
    requires s != [] && s[0] < 0x80 && n > 0
    ensures CleanTo(s, n) <==> CleanTo(s[1..], n - 1)
  {
    hide Decode;
  }

  /** Whatever the reader consumes before the closing number signs is decodable. */
  lemma {:induction false} RawReaderClean(s: Bytes, h: nat)
    ensures RawContent(s, h, false).Got? ==> CleanTo(s, RawContent(s, h, false).n - h)
    decreases |s|
  {
    hide Peek, RawContent, Front, Closes, HashRun;
    RawBad(s, h);
    if Peek(s).Rune? {
      FrontStep(s, h);
      if Closes(s, h) {
        CleanQuote(s, h);
      } else {
        var n := Front(s, h);
        RawReaderClean(s[n..], h);
        if RawContent(s[n..], h, false).Got? {
          CleanOverFront(s, h, n + RawContent(s[n..], h, false).n - h);
        }
      }
    }
  }

  lemma CleanQuote(s: Bytes, h: nat)
    requires Peek(s).Rune? && Closes(s, h)
    ensures CleanTo(s, 1)
  {}

  lemma CleanOverFront(s: Bytes, h: nat, n: int)
    requires Peek(s).Rune? && Front(s, h) <= |s| && CleanTo(s[Front(s, h)..], n - Front(s, h)) && n >= Front(s, h)
    ensures CleanTo(s, n)
  {
    hide Decode;
    var p := Peek(s);
    if p.c == Tokenize.QUOTE {
      HashRunAll(s[1..], h);
      CleanPastHashes(s[1..], HashRun(s[1..], h), n - 1);
      assert s[1..][HashRun(s[1..], h)..] == s[Front(s, h)..];
    }
  }

  /** It stops nowhere else: where there is a closing sequence with decodable runes before it, it gets there. */
  lemma {:induction false} RawReaderArrives(s: Bytes, h: nat, end: int)
    requires Raw.RawEnd(s, h, end) && CleanTo(s, end - h)
    ensures RawContent(s, h, false) == Got(end)
    decreases |s|
  {
    hide Peek, RawContent, Front, Closes, CleanTo;
    CleanFirst(s, end - h);
    FrontStep(s, h);
    FrontTerminators(s, h);
    CleanPastFront(s, h, end - h);
    if Closes(s, h) {
      Raw.RawEndUnique(s, h, end, 1 + h);
    } else {
      var n := Front(s, h);
      RawEndBack(s, n, h, end);
      RawReaderArrives(s[n..], h, end - n);
    }
  }

  lemma RawEndBack(s: Bytes, n: nat, h: nat, end: int)
    requires n <= |s| && Raw.RawEnd(s, h, end)
    requires forall i | 0 <= i < n :: !Raw.TerminatorAt(s, i, h)
    ensures Raw.RawEnd(s[n..], h, end - n)
  {
    assert end - 1 - h >= n;
    TerminatorShift(s, n, end - 1 - h - n, h);
    forall i | 0 <= i < end - n - 1 - h ensures !Raw.TerminatorAt(s[n..], i, h) {
      TerminatorShift(s, n, i, h);
    }
  }

  /** Decodable text stays so whatever follows it. */
  lemma {:induction false} CleanPrefix(s: Bytes, rest: Bytes)
    requires Clean(s)
    ensures CleanTo(s + rest, |s|)
    decreases |s|
  {
    hide Peek;
    if s != [] {
      PeekSizes(s);
      PeekPrefix(s, rest);
      var n := Peek(s).size;
      assert (s + rest)[n..] == s[n..] + rest;
      CleanPrefix(s[n..], rest);
    }
  }

  lemma {:induction false} CleanFurther(s: Bytes, n: nat)
    requires CleanTo(s, n) && n < |s| && s[n] < 0x80
    ensures CleanTo(s, n + 1)
    decreases |s|
  {
    hide Decode;
    if n == 0 {
      assert CleanTo(s[1..], 0);
    } else {
      var k := Peek(s).size;
      if k <= n {
        assert s[k..][n - k] == s[n];
        CleanFurther(s[k..], n - k);
      } else {
        BytesOfRune(s);
      }
    }
  }

  lemma BytesOfRune(s: Bytes)
    requires Peek(s).Rune? && Peek(s).size > 1
    ensures forall i | 0 <= i < Peek(s).size :: s[i] >= 0x80
  {
    MultiByte(s);
  }

  /** Decodable text up to an ASCII character is decodable without it. */
  lemma {:induction false} CleanBefore(s: Bytes, t: Bytes)
    requires t != [] && t[0] < 0x80 && CleanTo(s + t, |s|)
    ensures Clean(s)
    decreases |s|
  {
    hide Peek;
    if s != [] {
      PeekSizes(s + t);
      var n := Peek(s + t).size;
      RuneBefore(s, t);
      assert (s + t)[n..] == s[n..] + t;
      CleanBefore(s[n..], t);
    }
  }

  lemma RuneBefore(s: Bytes, t: Bytes)
    requires s != [] && t != [] && t[0] < 0x80 && Peek(s + t).Rune?
    ensures Peek(s) == Peek(s + t)
  {
    assert (s + t)[|s|] == t[0];
    if Peek(s + t).size > |s| {
      BytesOfRune(s + t);
    }
    WindowComplete(s, s + t);
  }

  /**
    A printed raw string with any number of hashes, whatever follows it, is scanned up to its end
    exactly when it can be decoded and does not contain its own closing sequence.  Decoding it gives back
    the string and the hash count.
   */
  lemma RawStringReadBack(s: Bytes, h: nat, rest: Bytes)
    ensures var q := Raw.RawQuote(s, h);
            && (RawScan(q + rest, false) == Got(|q|) <==> Clean(s) && !Raw.ContainsTerminator(s, h))
            && Raw.UnquoteRaw(q) == Some((s, h))
  {
    hide Clean, CleanTo, RawContent, RawFrom;
    var q := Raw.RawQuote(s, h);
    var close := [Quoted.QUOTE] + Multiline.Hashes(h) + rest;
    var t := s + [Quoted.QUOTE] + Multiline.Hashes(h) + rest;
    assert t == s + close;
    Raw.RawUnquotes(s, h);
    Raw.RawStopsAtEnd(s, h, rest);
    RawScanOpens(s, h, rest);
    RawReaderStops(t, h);
    RawReaderClean(t, h);
    if RawContent(t, h, false) == Got(|s| + 1 + h) {
      CleanToLess(t, |s| + 1, |s|);
      CleanBefore(s, close);
    }
    if Clean(s) && !Raw.ContainsTerminator(s, h) {
      CleanPrefix(s, close);
      assert t[|s|] == Quoted.QUOTE;
      CleanFurther(t, |s|);
      RawReaderArrives(t, h, |s| + 1 + h);
    }
  }

  /** So it is one token of version 1. */
  lemma RawTokenReadBack(s: Bytes, h: nat, rest: Bytes, start: bool)
    ensures var q := Raw.RawQuote(s, h);
            NextToken(q + rest, false, start) == Lexeme(RawString, |q|) <==> Clean(s) && !Raw.ContainsTerminator(s, h)
  {
    hide RawScan, Clean, Raw.ContainsTerminator, NextToken;
    RawStringReadBack(s, h, rest);
    RawIsNext(s, h, rest, start);
  }

  lemma RawIsNext(s: Bytes, h: nat, rest: Bytes, start: bool)
    ensures var t := Raw.RawQuote(s, h) + rest; NextToken(t, false, start) == Kind(RawString, RawScan(t, false))
  {
    hide RawScan, Decode;
    var t := Raw.RawQuote(s, h) + rest;
    assert t[0] == Raw.LETTER_R && t[1..][0] == if h > 0 then Multiline.HASH else Quoted.QUOTE;
  }

  lemma {:induction false} CleanToLess(s: Bytes, n: int, m: int)
    requires CleanTo(s, n) && m <= n
    ensures CleanTo(s, m)
    decreases |s|
  {
    hide Peek;
    if m > 0 {
      PeekSizes(s);
      CleanToLess(s[Peek(s).size..], n - Peek(s).size, m - Peek(s).size);
    }
  }

  lemma RawScanOpens(s: Bytes, h: nat, rest: Bytes)
    ensures var t := s + [Quoted.QUOTE] + Multiline.Hashes(h) + rest;
            RawScan(Raw.RawQuote(s, h) + rest, false) == Plus(h + 2, RawContent(t, h, false))
  {
    hide RawContent, RawFrom, Decode, Multiline.Hashes;
    var t := s + [Quoted.QUOTE] + Multiline.Hashes(h) + rest;
    var u := Multiline.Hashes(h) + [Quoted.QUOTE] + t;
    assert Raw.RawQuote(s, h) + rest == [Raw.LETTER_R] + u;
    assert ([Raw.LETTER_R] + u)[1..] == u;
    RawFromOpens(h, 0, t);
  }

  lemma {:induction false} RawFromOpens(h: nat, seen: nat, t: Bytes)
    ensures RawFrom(Multiline.Hashes(h) + [Quoted.QUOTE] + t, seen, false) == Plus(h + 1, RawContent(t, h + seen, false))
    decreases h
  {
    hide RawContent, Decode;
    var u := Multiline.Hashes(h) + [Quoted.QUOTE] + t;
    if h == 0 {
      assert u[1..] == t;
    } else {
      assert u[1..] == Multiline.Hashes(h - 1) + [Quoted.QUOTE] + t;
      RawFromOpens(h - 1, seen + 1, t);
    }
  }

  // ---------- Quoted strings ----------

  /** One rune inside a quoted string. */
  lemma QuoteRune(s: Bytes, v2: bool, st: QuoteState)
    requires Peek(s).Rune?
    ensures var p := Peek(s);
            var next := QuoteStep(st, p.c, Tokenize.QUOTE, v2, Next(s[p.size..], SLASH));
            next.Some? ==> QuoteLength(s, Tokenize.QUOTE, v2, st)
                           == p.size + QuoteLength(s[p.size..], Tokenize.QUOTE, v2, next.value)
  {
    hide Peek;
  }

  lemma AsciiAhead(c: byte, t: Bytes)
    requires c < 0x80
    ensures Peek([c] + t) == Rune(c, 1) && ([c] + t)[1..] == t
  {}

  /** An ASCII character that stands for itself. */
  lemma PlainByte(c: byte, t: Bytes, v2: bool)
    requires c < 0x80 && c != Quoted.QUOTE && c != Quoted.BACKSLASH && c != 0x0A && c != 0x0D
    ensures QuoteLength([c] + t, Tokenize.QUOTE, v2, OPENED) == 1 + QuoteLength(t, Tokenize.QUOTE, v2, OPENED)
  {
    hide QuoteLength, Peek;
    AsciiAhead(c, t);
    QuoteRune([c] + t, v2, OPENED);
  }

  /**
    A backslash and the character it escapes.  The version 2 reader rejects a backslash before a slash
    even when that backslash is itself escaped.
   */
  lemma EscapePair(c: byte, t: Bytes, v2: bool)
    requires c < 0x80 && c != SLASH && c != 0x20 && c != 0x09 && c != 0x0A && c != 0x0D
    ensures QuoteLength([Quoted.BACKSLASH, c] + t, Tokenize.QUOTE, v2, OPENED)
         == if v2 && c == Quoted.BACKSLASH && Next(t, SLASH) then 1
            else 2 + QuoteLength(t, Tokenize.QUOTE, v2, OPENED)
  {
    hide Peek;
    var s := [Quoted.BACKSLASH, c] + t;
    assert s == [Quoted.BACKSLASH] + ([c] + t);
    AsciiAhead(Quoted.BACKSLASH, [c] + t);
    AsciiAhead(c, t);
    assert s[1..] == [c] + t;
  }

  lemma LongRune(s: Bytes, t: Bytes, v2: bool)
    requires Peek(s).Rune? && Peek(s).size == |s| && Peek(s).c >= 0x80
    ensures QuoteLength(s + t, Tokenize.QUOTE, v2, OPENED) == |s| + QuoteLength(t, Tokenize.QUOTE, v2, OPENED)
  {
    hide QuoteLength, Peek;
    PeekPrefix(s, t);
    assert (s + t)[|s|..] == t;
    QuoteRune(s + t, v2, OPENED);
  }

  /** A backslash directly before a slash. */
  predicate SlashNext(s: Bytes) {
    |s| > 1 && s[0] == Quoted.BACKSLASH && s[1] == SLASH
  }

  /** No backslash stands directly before a slash. */
  predicate SlashFree(s: Bytes)
    decreases |s|
  {
    s == [] || (!SlashNext(s) && SlashFree(s[Decode(s).size..]))
  }

  /** The replacement character itself, as opposed to bytes that cannot be decoded. */
  const REPLACEMENT := Decoded(RUNE_ERROR, 3)

  /** No replacement character is written out in the string. */
  predicate NoRep(s: Bytes)
    decreases |s|
  {
    s == [] || (Decode(s) != REPLACEMENT && NoRep(s[Decode(s).size..]))
  }

  /** However a character is written, the reader is back in its initial state after it. */
  lemma EscapedRune(s: Bytes, t: Bytes, v2: bool)
    requires s != [] && Decode(s) != REPLACEMENT
    ensures var e := Quoted.EscapeFirst(s, Quoted.QUOTE);
            QuoteLength(e + t, Tokenize.QUOTE, v2, OPENED)
            == if v2 && s[0] == Quoted.BACKSLASH && Next(t, SLASH) then 1
               else |e| + QuoteLength(t, Tokenize.QUOTE, v2, OPENED)
  {
    hide QuoteLength;
    var e := Quoted.EscapeFirst(s, Quoted.QUOTE);
    var c := s[0];
    if Decode(s) == INVALID {
      ReplacedRune(t, v2);
    } else if c >= 0x80 {
      LongFirst(s);
      LongRune(e, t, v2);
    } else if Quoted.NoEscape(c) {
      PlainByte(c, t, v2);
    } else if |e| == 2 {
      assert e == [e[0], e[1]];
      EscapePair(e[1], t, v2);
    } else {
      HexEscape(c, t, v2);
    }
  }

  /** Bytes that cannot be decoded are written as an escape, which the reader passes. */
  lemma ReplacedRune(t: Bytes, v2: bool)
    ensures QuoteLength(Quoted.REPLACEMENT_TEXT + t, Tokenize.QUOTE, v2, OPENED)
         == |Quoted.REPLACEMENT_TEXT| + QuoteLength(t, Tokenize.QUOTE, v2, OPENED)
  {
    hide QuoteLength, Peek;
    var d := ['d' as int] + t;
    var fd := ['f' as int] + d;
    var ffd := ['f' as int] + fd;
    var fffd := ['f' as int] + ffd;
    assert Quoted.REPLACEMENT_TEXT + t == [Quoted.BACKSLASH, 'u' as int] + fffd;
    EscapePair('u' as int, fffd, v2);
    PlainByte('f' as int, ffd, v2);
    PlainByte('f' as int, fd, v2);
    PlainByte('f' as int, d, v2);
    PlainByte('d' as int, t, v2);
  }

  lemma LongFirst(s: Bytes)
    requires s != [] && Decode(s) != INVALID && Decode(s) != REPLACEMENT && s[0] >= 0x80
    ensures var e := Quoted.EscapeFirst(s, Quoted.QUOTE); Peek(e).Rune? && Peek(e).size == |e| && Peek(e).c >= 0x80
  {
    var n := Decode(s).size;
    RepSize(s);
    DecodeLocal(s, n, []);
    assert s[..n] + [] == s[..n];
  }

  /** A rune that decodes to the replacement character takes three bytes, or is not decoded. */
  lemma RepSize(s: Bytes)
    ensures s != [] && Decode(s).r == RUNE_ERROR ==> Decode(s) == INVALID || Decode(s) == REPLACEMENT
  {
    if s != [] && Decode(s) != INVALID {
      EncodeDecode(s);
    }
  }

  lemma HexEscape(c: byte, t: Bytes, v2: bool)
    requires c < 0x80
    ensures var e := [Quoted.BACKSLASH, 'u' as int] + Quoted.Hex(c);
            QuoteLength(e + t, Tokenize.QUOTE, v2, OPENED) == |e| + QuoteLength(t, Tokenize.QUOTE, v2, OPENED)
  {
    hide QuoteLength, Peek;
    var h := Quoted.Hex(c);
    var e := [Quoted.BACKSLASH, 'u' as int] + h;
    assert e + t == [Quoted.BACKSLASH, 'u' as int] + (h + t);
    EscapePair('u' as int, h + t, v2);
    if |h| == 1 {
      PlainByte(h[0], t, v2);
      assert h == [h[0]];
    } else {
      assert h + t == [h[0]] + ([h[1]] + t);
      PlainByte(h[0], [h[1]] + t, v2);
      PlainByte(h[1], t, v2);
    }
  }

  /** Only a slash is written as something that begins with a slash. */
  lemma SlashAhead(s: Bytes, t: Bytes)
    requires !Next(t, SLASH)
    ensures Next(Quoted.EscapeAll(s, Quoted.QUOTE) + t, SLASH) <==> s != [] && s[0] == SLASH
  {
    hide Decode, Quoted.EscapeFirst;
    var e := Quoted.EscapeAll(s, Quoted.QUOTE);
    if s == [] {
      assert e + t == t;
    } else {
      SlashFirst(s);
      assert (e + t)[0] == Quoted.EscapeFirst(s, Quoted.QUOTE)[0];
    }
  }

  lemma SlashFirst(s: Bytes)
    requires s != []
    ensures var e := Quoted.EscapeFirst(s, Quoted.QUOTE); e != [] && (e[0] == SLASH <==> s[0] == SLASH)
  {}

  /** The reader refuses the replacement character wherever it stands. */
  lemma RepAhead(s: Bytes, t: Bytes)
    requires s != [] && Decode(s) == REPLACEMENT
    ensures var e := Quoted.EscapeFirst(s, Quoted.QUOTE); |e| == 3 && Peek(e + t) == Bad(InvalidRune)
  {
    DecodeLocal(s, 3, t);
  }

  /** The printed characters are passed up to the first that is refused, or stops the version 2 reader. */
  lemma {:induction false} EscapedText(s: Bytes, t: Bytes, v2: bool)
    requires !Next(t, SLASH)
    ensures var e := Quoted.EscapeAll(s, Quoted.QUOTE);
            var n := QuoteLength(e + t, Tokenize.QUOTE, v2, OPENED);
            if NoRep(s) && (!v2 || SlashFree(s)) then n == |e| + QuoteLength(t, Tokenize.QUOTE, v2, OPENED)
            else n < |e| && (!v2 ==> Peek((e + t)[n..]) == Bad(InvalidRune))
    decreases |s|
  {
    hide QuoteLength, Quoted.EscapeFirst, Decode, Peek;
    var e := Quoted.EscapeAll(s, Quoted.QUOTE);
    if s == [] {
      assert e + t == t;
    } else {
      var k := Decode(s).size;
      var first, more := Quoted.EscapeFirst(s, Quoted.QUOTE), Quoted.EscapeAll(s[k..], Quoted.QUOTE);
      assert e + t == first + (more + t);
      if Decode(s) == REPLACEMENT {
        RepAhead(s, more + t);
        NothingRead(e + t, v2);
      } else {
        EscapedRune(s, more + t, v2);
        SlashAhead(s[k..], t);
        if v2 && SlashNext(s) {
          BackslashWritten(s);
        } else {
          EscapedText(s[k..], t, v2);
          var n := QuoteLength(more + t, Tokenize.QUOTE, v2, OPENED);
          assert (first + (more + t))[|first| + n..] == (more + t)[n..];
        }
      }
    }
  }

  lemma NothingRead(s: Bytes, v2: bool)
    requires Peek(s) == Bad(InvalidRune)
    ensures QuoteLength(s, Tokenize.QUOTE, v2, OPENED) == 0 && s[0..] == s
  {}

  lemma BackslashWritten(s: Bytes)
    requires s != [] && s[0] == Quoted.BACKSLASH
    ensures |Quoted.EscapeFirst(s, Quoted.QUOTE)| == 2
  {}

  lemma PeekIsDecode(s: Bytes)
    requires Peek(s).Rune?
    ensures Decode(s) == Decoded(Peek(s).c, Peek(s).size)
  {}

  /**
    The quoted-string reader stops exactly at the final quote of a printed string if and only if no
    replacement character is written out in the string, what follows the quote can be decoded and, in
    version 2, no backslash in the string stands directly before a slash.  At a replacement character the
    version 1 reader fails.  What is scanned decodes to the string exactly when the string can be quoted.
   */
  lemma QuotedStringReadBack(s: Bytes, rest: Bytes, v2: bool)
    ensures var q := Quoted.Quote(s, Quoted.QUOTE);
            && (QuotedScan(q + rest, Tokenize.QUOTE, v2) == Got(|q|)
                <==> NoRep(s) && (!v2 || SlashFree(s)) && Peek(rest) != Bad(InvalidRune))
            && (!NoRep(s) ==> QuotedScan(q + rest, Tokenize.QUOTE, false) == Failed(InvalidRune))
            && Quoted.Unquote(q, Quoted.QUOTE) == if Quoted.Quotable(s) then Some(s) else None
  {
    hide QuoteLength, Peek, Quoted.EscapeAll, Quoted.Unquote, Quoted.Quotable, SlashFree, NoRep;
    var e := Quoted.EscapeAll(s, Quoted.QUOTE);
    var q := Quoted.Quote(s, Quoted.QUOTE);
    var t := [Quoted.QUOTE] + rest;
    assert q + rest == [Quoted.QUOTE] + (e + t);
    AsciiAhead(Quoted.QUOTE, e + t);
    AsciiAhead(Quoted.QUOTE, rest);
    EscapedText(s, t, v2);
    EscapedText(s, t, false);
    FinalQuote(rest, v2);
    assert (e + t)[|e| + 1..] == rest;
    BadKinds(rest);
    Quoted.QuoteRoundTrip(s);
  }

  /** The shortest such string: it can be quoted and unquoted, and no reader of either version takes it. */
  lemma ReplacementRefused(v2: bool)
    ensures var s: Bytes := [0xEF, 0xBF, 0xBD];
            && Quoted.Quotable(s) && Quoted.Unquote(Quoted.Quote(s, Quoted.QUOTE), Quoted.QUOTE) == Some(s)
            && QuotedScan(Quoted.Quote(s, Quoted.QUOTE), Tokenize.QUOTE, v2) == Failed(InvalidRune)
  {
    hide Quoted.Unquote, QuoteLength;
    var s: Bytes := [0xEF, 0xBF, 0xBD];
    var q := Quoted.Quote(s, Quoted.QUOTE);
    assert Decode(s) == REPLACEMENT && s[3..] == [];
    assert Quoted.EscapeAll(s, Quoted.QUOTE) == s + [];
    assert s + [] == s && q == [Quoted.QUOTE] + (s + [Quoted.QUOTE]);
    Quoted.QuoteRoundTrip(s);
    AsciiAhead(Quoted.QUOTE, s + [Quoted.QUOTE]);
    RepAhead(s, [Quoted.QUOTE]);
    assert Quoted.EscapeFirst(s, Quoted.QUOTE) == s[..3] == s;
    NothingRead(s + [Quoted.QUOTE], v2);
  }

  lemma BadKinds(s: Bytes)
    ensures Peek(s).Bad? ==> Peek(s).e.AtEnd? || Peek(s).e.InvalidRune?
  {}

  lemma FinalQuote(rest: Bytes, v2: bool)
    ensures QuoteLength([Quoted.QUOTE] + rest, Tokenize.QUOTE, v2, OPENED) == 1
  {
    AsciiAhead(Quoted.QUOTE, rest);
  }
}
