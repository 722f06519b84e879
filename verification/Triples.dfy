/**
  Triple-quoted strings with escapes: what a text written line by line, escaped and indented, is decoded to.
 */
module Triples {
  import opened Wrappers
  import opened Utf8
  import opened Quoted
  import opened Multiline
  import opened Tokens
  import opened Document

  // ---------- Indented text after dedenting ----------

  /** What is left of a text whose lines were indented by w: blank lines lose their blanks, continued lines keep w. */
  function Redent(s: Bytes, w: Bytes, continued: bool): Bytes
    decreases |s|
  {
    if s == [] then []
    else
      var p := FirstLine(s);
      (if AllSpace(p.line) then [] else if continued then w + p.line else p.line) + p.newline
      + Redent(p.rest, w, HasLineContinuation(p.line))
  }

  /** No line is made of blanks, and none follows a continued one unless it is empty or there is no indentation. */
  predicate Stays(s: Bytes, w: Bytes, continued: bool)
    decreases |s|
  {
    s == [] || (
      var p := FirstLine(s);
      && (p.line == [] || (!AllSpace(p.line) && (continued ==> w == [])))
      && Stays(p.rest, w, HasLineContinuation(p.line)))
  }

  lemma {:induction false} DedentIndented(s: Bytes, w: Bytes, continued: bool)
    requires InlineSpace(w)
    ensures Dedent(Indent(s, w), w, continued) == Some(Redent(s, w, continued))
    decreases |s|
  {
    hide Dedent, FirstLine, HasLineContinuation, Valid, AllSpace;
    if s == [] {
      DedentNothing(w, continued);
    } else {
      var p, t := FirstLine(s), Indent(s, w);
      IndentFirstLine(s, w);
      DedentStep(t, w, continued, []);
      PrependNothing(Dedent(t, w, continued));
      NothingIsBlank();
      if p.line != [] {
        AllSpaceConcat(w, p.line);
        ContinuationConcat(w, p.line);
        assert (w + p.line)[|w|..] == p.line;
      }
      DedentIndented(p.rest, w, HasLineContinuation(p.line));
      assert [] + p.newline == p.newline && [] + p.line == p.line && [] + (w + p.line) == w + p.line;
    }
  }

  lemma RedentStep(s: Bytes, w: Bytes, continued: bool)
    requires s != []
    ensures var p := FirstLine(s);
            var next := HasLineContinuation(p.line);
            var x := if AllSpace(p.line) then [] else if continued then w + p.line else p.line;
            && Redent(s, w, continued) == x + p.newline + Redent(p.rest, w, next)
            && (Stays(s, w, continued) <==> x == p.line && Stays(p.rest, w, next))
  {
    hide AllSpace, HasLineContinuation, FirstLine;
    NothingIsBlank();
  }

  /** Only a text that stays is left as it is; in particular nothing is left of a text with a newline more. */
  lemma {:induction false} RedentSame(s: Bytes, w: Bytes, continued: bool, more: Bytes)
    requires NewlineFree(w) && (more == [] || IsNewlineByte(more[0]))
    ensures Redent(s, w, continued) == s + more <==> more == [] && Stays(s, w, continued)
    decreases |s|
  {
    hide AllSpace, HasLineContinuation, FirstLine;
    if s == [] {
      assert s + more == more;
    } else {
      var p := FirstLine(s);
      var next := HasLineContinuation(p.line);
      var x := if AllSpace(p.line) then [] else if continued then w + p.line else p.line;
      RedentStep(s, w, continued);
      RedentSame(p.rest, w, next, more);
      if p.newline != [] {
        FirstNewlineShape(s);
      }
      hide Redent, Stays;
      assert s + more == p.line + p.newline + (p.rest + more);
      RedentNothing(w, next);
      FrontDiffers(x, p.line, p.newline, Redent(p.rest, w, next), p.rest, more);
    }
  }

  lemma RedentNothing(w: Bytes, continued: bool)
    ensures Redent([], w, continued) == []
  {}

  lemma SameFront(a: Bytes, b: Bytes, c: Bytes)
    ensures a + b == a + c <==> b == c
  {
    assert (a + b)[|a|..] == b && (a + c)[|a|..] == c;
  }

  /** Two texts that agree about a newline agree about their first lines. */
  lemma FrontDiffers(x: Bytes, line: Bytes, newline: Bytes, a: Bytes, rest: Bytes, more: Bytes)
    requires NewlineFree(x) && NewlineFree(line) && (x == line || |x| > |line| || x == [])
    requires if newline == [] then rest == [] && a == [] else IsNewlineByte(newline[0])
    requires more == [] || IsNewlineByte(more[0])
    ensures x + newline + a == line + newline + (rest + more) <==> x == line && a == rest + more
  {
    if x == line {
      SameFront(line + newline, a, rest + more);
    } else {
      LineDiffers(x, line, newline, a, rest, more);
    }
  }

  /** Two texts whose first lines differ. */
  lemma LineDiffers(x: Bytes, line: Bytes, newline: Bytes, a: Bytes, rest: Bytes, more: Bytes)
    requires x != line && NewlineFree(x) && NewlineFree(line) && (|x| > |line| || x == [])
    requires if newline == [] then rest == [] && a == [] else IsNewlineByte(newline[0])
    requires more == [] || IsNewlineByte(more[0])
    ensures x + newline + a != line + newline + (rest + more)
  {
    var l, r := x + newline + a, line + newline + (rest + more);
    if newline == [] {
      assert l == x && r == line + more;
      if more != [] {
        assert r[|line|] == more[0];
      }
    } else if x == [] {
      assert l[0] == newline[0] && r[0] == line[0];
    } else {
      assert l[|line|] == x[|line|] && r[|line|] == newline[0];
    }
  }

  // ---------- Escaped lines ----------

  /** One written character decodes to itself exactly when it is printable, in multi-line content too. */
  lemma ContentFirst(s: Bytes, rest: Bytes, allow: bool)
    requires s != []
    ensures var ok := Decode(s) != INVALID && (s[0] < 0x80 ==> Printable(s[0]));
            UnescapeContent(EscapeFirst(s, QUOTE) + rest, QUOTE, allow)
            == if ok then Prepend(s[..Decode(s).size], UnescapeContent(rest, QUOTE, allow)) else None
  {
    var c, d := s[0], Decode(s);
    var e := EscapeFirst(s, QUOTE);
    var t := e + rest;
    if d == INVALID {
      assert t[..6] == REPLACEMENT_TEXT;
      NoSuchEscape(t, allow);
    } else if c >= 0x80 {
      DecodeLocal(s, d.size, rest);
      EncodeDecode(s);
      assert t[0] == c && t[d.size..] == rest;
    } else if NoEscape(c) {
      assert t[0] == c && t[1..] == rest && s[..1] == [c];
    } else if |e| == 2 {
      assert e == [BACKSLASH, e[1]] && s[..1] == [c];
      ShortEscape(e[1], rest, allow);
    } else {
      assert t[0] == BACKSLASH && t[1] == 'u' as int && t[2] == e[2] != '{' as int;
      NoSuchEscape(t, allow);
    }
  }

  lemma NoSuchEscape(t: Bytes, allow: bool)
    requires |t| > 2 && t[0] == BACKSLASH && t[1] == 'u' as int && t[2] != '{' as int
    ensures UnescapeContent(t, QUOTE, allow) == None
  {
    assert t[1..][0] == t[1];
  }

  lemma ShortEscape(c: byte, rest: Bytes, allow: bool)
    requires c < 0x80 && SimpleEscape(c, QUOTE).Some?
    ensures UnescapeContent([BACKSLASH, c] + rest, QUOTE, allow)
         == Prepend([SimpleEscape(c, QUOTE).value], UnescapeContent(rest, QUOTE, allow))
  {
    hide SpaceRun, BraceEscape;
    var t := [BACKSLASH, c] + rest;
    assert t[1..][0] == c && t[2..] == rest;
  }

  lemma {:induction false} EscapedContent(s: Bytes, rest: Bytes, allow: bool)
    ensures UnescapeContent(EscapeAll(s, QUOTE) + rest, QUOTE, allow)
         == if Quotable(s) then Prepend(s, UnescapeContent(rest, QUOTE, allow)) else None
    decreases |s|
  {
    hide Decode, UnescapeContent, EscapeFirst, EscapeAll, Quotable, Printable;
    if s == [] {
      EscapedNothing();
      assert [] + rest == rest;
      PrependNothing(UnescapeContent(rest, QUOTE, allow));
    } else {
      var n := Decode(s).size;
      var e, more := EscapeFirst(s, QUOTE), EscapeAll(s[n..], QUOTE);
      EscapeAllFirst(s);
      assert e + more + rest == e + (more + rest);
      ContentFirst(s, more + rest, allow);
      EscapedContent(s[n..], rest, allow);
      QuotableFirst(s);
      PrependAssoc(s[..n], s[n..], UnescapeContent(rest, QUOTE, allow));
      assert s[..n] + s[n..] == s;
    }
  }

  lemma EscapedNothing()
    ensures EscapeAll([], QUOTE) == [] && Quotable([])
  {}

  /** Each line written with escapes, the newlines kept. */
  function EscapeLines(t: Bytes): Bytes
    decreases |t|
  {
    if t == [] then []
    else
      var p := FirstLine(t);
      EscapeAll(p.line, QUOTE) + p.newline + EscapeLines(p.rest)
  }

  /** What is written holds no newline. */
  lemma {:induction false} EscapedLine(s: Bytes)
    ensures NewlineFree(EscapeAll(s, QUOTE))
    ensures s != [] ==> EscapeAll(s, QUOTE) != []
    decreases |s|
  {
    hide Decode, EscapeFirst, EscapeAll;
    if s == [] {
      EscapedNothing();
    } else {
      EscapeAllFirst(s);
      EscapedFirst(s);
      EscapedLine(s[Decode(s).size..]);
    }
  }

  lemma EscapedFirst(s: Bytes)
    requires s != []
    ensures NewlineFree(EscapeFirst(s, QUOTE)) && EscapeFirst(s, QUOTE) != []
  {
    if Decode(s).size > 1 {
      MultiByte(s);
    }
  }

  /** Writing keeps the lines apart. */
  lemma EscapedFirstLine(t: Bytes)
    requires t != []
    ensures var p := FirstLine(t);
            EscapeLines(t) != [] &&
            FirstLine(EscapeLines(t)) == Split(EscapeAll(p.line, QUOTE), p.newline, EscapeLines(p.rest))
  {
    hide FirstLine, EscapeAll, FirstNewline;
    var p := FirstLine(t);
    EscapedLine(p.line);
    EscapedStart(p.rest);
    if p.newline != [] {
      FirstNewlineShape(t);
      WholeNewline(p.newline, EscapeLines(p.rest));
    }
    FirstLineIs(EscapeAll(p.line, QUOTE), p.newline, EscapeLines(p.rest));
  }

  lemma EscapedStart(t: Bytes)
    ensures t == [] <==> EscapeLines(t) == []
    ensures t != [] && EscapeLines(t)[0] == LF ==> t[0] == LF
  {
    hide FirstLine, EscapeAll;
    if t != [] {
      var p := FirstLine(t);
      EscapedLine(p.line);
      EscapedNothing();
      assert (p.line + p.newline)[0] == t[0];
      if p.line != [] {
        assert EscapeLines(t)[0] == EscapeAll(p.line, QUOTE)[0];
      }
    }
  }

  /** What the written text is decoded to: its blank lines lose their blanks, its continued lines gain w. */
  function Kept(t: Bytes, w: Bytes, continued: bool): Bytes
    decreases |t|
  {
    if t == [] then []
    else
      var p := FirstLine(t);
      var e := EscapeAll(p.line, QUOTE);
      (if AllSpace(e) then [] else if continued then w + p.line else p.line) + p.newline
      + Kept(p.rest, w, HasLineContinuation(e))
  }

  lemma DecodeBeforeByte(a: Bytes, b: Bytes)
    requires a != [] && (b == [] || b[0] < 0x80)
    ensures Decode(a + b) == Decode(a)
  {
    var s := a + b;
    assert forall i | 0 <= i < |a| :: s[i] == a[i];
    if b == [] {
      assert s == a;
    } else {
      assert s[|a|] == b[0];
    }
  }

  lemma {:induction false} QuotableConcat(a: Bytes, b: Bytes)
    requires b == [] || b[0] < 0x80
    ensures Quotable(a + b) <==> Quotable(a) && Quotable(b)
    decreases |a|
  {
    hide Decode, Quotable, Printable;
    if a == [] {
      assert a + b == b;
      EscapedNothing();
    } else {
      var n := Decode(a).size;
      DecodeBeforeByte(a, b);
      QuotableFirst(a);
      QuotableFirst(a + b);
      assert (a + b)[n..] == a[n..] + b;
      QuotableConcat(a[n..], b);
    }
  }

  lemma QuotableByte(c: byte, b: Bytes)
    requires IsNewlineByte(c)
    ensures Quotable([c] + b) <==> Quotable(b)
    ensures forall allow :: UnescapeContent([c] + b, QUOTE, allow) == Prepend([c], UnescapeContent(b, QUOTE, allow))
  {
    hide Quotable;
    QuotableFirst([c] + b);
    assert ([c] + b)[1..] == b;
  }

  /** A newline can be quoted and stands for itself. */
  lemma NewlineStands(newline: Bytes, b: Bytes, allow: bool)
    requires newline == [] || newline in {[LF], [CR], [CR, LF]}
    ensures Quotable(newline + b) <==> Quotable(b)
    ensures UnescapeContent(newline + b, QUOTE, allow) == Prepend(newline, UnescapeContent(b, QUOTE, allow))
  {
    hide Quotable, UnescapeContent;
    if newline == [] {
      assert newline + b == b;
      PrependNothing(UnescapeContent(b, QUOTE, allow));
    } else if |newline| == 1 {
      QuotableByte(newline[0], b);
    } else {
      assert newline + b == [CR] + ([LF] + b);
      QuotableByte(CR, [LF] + b);
      QuotableByte(LF, b);
      PrependAssoc([CR], [LF], UnescapeContent(b, QUOTE, allow));
      assert [CR] + [LF] == newline;
    }
  }

  lemma QuotableLines(t: Bytes)
    requires t != []
    ensures Quotable(t) <==> Quotable(FirstLine(t).line) && Quotable(FirstLine(t).rest)
  {
    hide Quotable, FirstLine, Prepend, UnescapeContent;
    var p := FirstLine(t);
    if p.newline != [] {
      FirstNewlineShape(t);
    }
    assert t == p.line + (p.newline + p.rest);
    QuotableConcat(p.line, p.newline + p.rest);
    NewlineStands(p.newline, p.rest, false);
  }

  /** Blanks stand for themselves. */
  lemma {:induction false} SpacesStand(w: Bytes, b: Bytes, allow: bool)
    requires AllSpace(w)
    ensures UnescapeContent(w + b, QUOTE, allow) == Prepend(w, UnescapeContent(b, QUOTE, allow))
    decreases |w|
  {
    hide UnescapeContent, Decode, Encode;
    var o := UnescapeContent(b, QUOTE, allow);
    if w == [] {
      assert w + b == b;
      PrependNothing(o);
    } else {
      var n := Decode(w).size;
      SpaceStands(w, b, allow);
      SpacesStand(w[n..], b, allow);
      PrependAssoc(w[..n], w[n..], o);
      assert w[..n] + w[n..] == w;
    }
  }

  lemma SpaceStands(w: Bytes, b: Bytes, allow: bool)
    requires w != [] && AllSpace(w)
    ensures var n := Decode(w).size;
            UnescapeContent(w + b, QUOTE, allow) == Prepend(w[..n], UnescapeContent(w[n..] + b, QUOTE, allow))
  {
    var n := Decode(w).size;
    AllSpaceValid(w);
    DecodeLocal(w, |w|, b);
    EncodeDecode(w);
    assert w[..|w|] == w && (w + b)[n..] == w[n..] + b;
  }

  /** A blank line is written as it is, so it can be quoted. */
  lemma {:induction false} BlankQuotable(s: Bytes)
    requires AllSpace(EscapeAll(s, QUOTE))
    ensures Quotable(s)
    decreases |s|
  {
    hide Decode, EscapeFirst, EscapeAll, Quotable, Printable;
    if s == [] {
      EscapedNothing();
    } else {
      var n := Decode(s).size;
      EscapeAllFirst(s);
      BlankFirst(s, EscapeAll(s[n..], QUOTE));
      BlankQuotable(s[n..]);
      QuotableFirst(s);
    }
  }

  lemma BlankFirst(s: Bytes, more: Bytes)
    requires s != [] && AllSpace(EscapeFirst(s, QUOTE) + more)
    ensures Decode(s) != INVALID && (s[0] < 0x80 ==> Printable(s[0])) && AllSpace(more)
  {
    var e := EscapeFirst(s, QUOTE);
    var t := e + more;
    if s[0] >= 0x80 && e[0] != BACKSLASH {
      var n := Decode(s).size;
      DecodeLocal(s, n, more);
      assert t[n..] == more;
    } else if e[0] != BACKSLASH {
      assert t[1..] == more;
    }
  }

  lemma LineDecodes(line: Bytes, newline: Bytes, w: Bytes, continued: bool, tail: Bytes, allow: bool)
    requires InlineSpace(w) && (newline == [] || newline in {[LF], [CR], [CR, LF]})
    ensures var e, o := EscapeAll(line, QUOTE), UnescapeContent(tail, QUOTE, allow);
            var x := if AllSpace(e) then [] else if continued then w + e else e;
            var y := if AllSpace(e) then [] else if continued then w + line else line;
            && (AllSpace(e) ==> Quotable(line))
            && UnescapeContent(x + newline + tail, QUOTE, allow) == if Quotable(line) then Prepend(y + newline, o) else None
  {
    hide UnescapeContent, EscapeAll, Quotable, AllSpace;
    var e, o := EscapeAll(line, QUOTE), UnescapeContent(tail, QUOTE, allow);
    NewlineStands(newline, tail, allow);
    if AllSpace(e) {
      BlankQuotable(line);
      assert [] + newline == newline;
    } else {
      EscapedContent(line, newline + tail, allow);
      PrependAssoc(line, newline, o);
      assert e + newline + tail == e + (newline + tail);
      if continued {
        SpacesStand(w, e + (newline + tail), allow);
        PrependAssoc(w, line + newline, o);
        assert w + e + newline + tail == w + (e + (newline + tail)) && w + (line + newline) == w + line + newline;
      }
    }
  }

  /** Decoding what dedenting leaves of a written text. */
  lemma {:induction false} RedentDecodes(t: Bytes, w: Bytes, continued: bool, end: Bytes, allow: bool)
    requires InlineSpace(w)
    ensures UnescapeContent(Redent(EscapeLines(t), w, continued) + end, QUOTE, allow)
         == if Quotable(t) then Prepend(Kept(t, w, continued), UnescapeContent(end, QUOTE, allow)) else None
    decreases |t|
  {
    hide UnescapeContent, FirstLine, EscapeAll, Quotable, AllSpace, HasLineContinuation, EscapeLines, Redent, Kept;
    var o := UnescapeContent(end, QUOTE, allow);
    if t == [] {
      EscapedNothingAtAll();
      RedentNothing(w, continued);
      KeptNothing(w, continued);
      EscapedNothing();
      PrependNothing(o);
      assert [] + end == end;
    } else {
      var p := FirstLine(t);
      var e := EscapeAll(p.line, QUOTE);
      var next := HasLineContinuation(e);
      var tail := Redent(EscapeLines(p.rest), w, next);
      var x := if AllSpace(e) then [] else if continued then w + e else e;
      var y := if AllSpace(e) then [] else if continued then w + p.line else p.line;
      EscapedFirstLine(t);
      RedentDecodes(p.rest, w, next, end, allow);
      QuotableLines(t);
      if p.newline != [] {
        FirstNewlineShape(t);
      }
      LineDecodes(p.line, p.newline, w, continued, tail + end, allow);
      RedentStep(EscapeLines(t), w, continued);
      KeptStep(t, w, continued);
      assert x + p.newline + tail + end == x + p.newline + (tail + end);
      PrependAssoc(y + p.newline, Kept(p.rest, w, next), o);
    }
  }

  lemma KeptStep(t: Bytes, w: Bytes, continued: bool)
    requires t != []
    ensures var p := FirstLine(t);
            var e := EscapeAll(p.line, QUOTE);
            var next := HasLineContinuation(e);
            var x := if AllSpace(e) then [] else if continued then w + p.line else p.line;
            && Kept(t, w, continued) == x + p.newline + Kept(p.rest, w, next)
            && (Stays(EscapeLines(t), w, continued) <==> x == p.line && Stays(EscapeLines(p.rest), w, next))
  {
    hide AllSpace, HasLineContinuation, FirstLine, EscapeAll;
    NothingIsBlank();
    EscapedNothing();
    EscapedFirstLine(t);
    EscapedLine(FirstLine(t).line);
  }

  lemma KeptNothing(w: Bytes, continued: bool)
    ensures Kept([], w, continued) == []
  {}

  /** The text comes back unchanged exactly when what is written stays. */
  lemma {:induction false} KeptSame(t: Bytes, w: Bytes, continued: bool, more: Bytes)
    requires NewlineFree(w) && (more == [] || IsNewlineByte(more[0]))
    ensures Kept(t, w, continued) == t + more <==> more == [] && Stays(EscapeLines(t), w, continued)
    decreases |t|
  {
    hide AllSpace, HasLineContinuation, FirstLine, EscapeAll;
    if t == [] {
      assert t + more == more;
    } else {
      var p := FirstLine(t);
      var e := EscapeAll(p.line, QUOTE);
      var next := HasLineContinuation(e);
      var x := if AllSpace(e) then [] else if continued then w + p.line else p.line;
      KeptStep(t, w, continued);
      KeptSame(p.rest, w, next, more);
      if p.newline != [] {
        FirstNewlineShape(t);
      }
      hide Kept, Stays;
      assert t + more == p.line + p.newline + (p.rest + more);
      KeptNothing(w, next);
      FrontDiffers(x, p.line, p.newline, Kept(p.rest, w, next), p.rest, more);
    }
  }

  // ---------- The end of the content ----------

  /** In written text a backslash is followed by something that is no blank. */
  lemma {:induction false} BackslashFollowed(s: Bytes)
    ensures var e := EscapeAll(s, QUOTE);
            var i := FirstBackslash(e);
            i < |e| ==> i + 1 < |e| && e[i + 1] > 0x20 && e[i + 1] < 0x80
    decreases |s|
  {
    hide Decode, EscapeFirst, EscapeAll, FirstBackslash;
    var e := EscapeAll(s, QUOTE);
    if s == [] {
      EscapedNothing();
    } else {
      var n := Decode(s).size;
      var first, more := EscapeFirst(s, QUOTE), EscapeAll(s[n..], QUOTE);
      EscapeAllFirst(s);
      BackslashFollowed(s[n..]);
      FirstWritten(s);
      FirstOfTwo(first, more);
      assert e == first + more;
      assert first[0] == BACKSLASH ==> e[0] == first[0] && e[1] == first[1];
      var j := FirstBackslash(more);
      if first[0] != BACKSLASH && j < |more| {
        assert e[|first| + j + 1] == more[j + 1];
      }
    }
  }

  lemma FirstOfTwo(a: Bytes, b: Bytes)
    requires a != []
    ensures a[0] == BACKSLASH ==> FirstBackslash(a + b) == 0
    ensures BACKSLASH !in a ==> FirstBackslash(a + b) == |a| + FirstBackslash(b)
  {
    hide FirstBackslash;
    var i, j := FirstBackslash(a + b), FirstBackslash(b);
    assert (a + b)[0] == a[0];
    if BACKSLASH !in a {
      assert forall k | 0 <= k < |a| :: (a + b)[k] == a[k];
      assert forall k | |a| <= k < |a + b| :: (a + b)[k] == b[k - |a|];
      assert j < |b| ==> (a + b)[|a| + j] == b[j];
    }
  }

  lemma FirstWritten(s: Bytes)
    requires s != []
    ensures var e := EscapeFirst(s, QUOTE);
            && e != []
            && (e[0] == BACKSLASH ==> |e| > 1 && 0x20 < e[1] < 0x80)
            && (e[0] != BACKSLASH ==> BACKSLASH !in e)
  {
    if Decode(s).size > 1 {
      MultiByte(s);
    }
  }

  lemma NoClosingEscapeWritten(w: Bytes, s: Bytes)
    requires AllSpace(w)
    ensures ClosingEscape(w + EscapeAll(s, QUOTE)).None?
  {
    hide FirstBackslash, EscapeAll;
    var e := EscapeAll(s, QUOTE);
    var l := w + e;
    var i := FirstBackslash(l);
    NoBackslash(w);
    BackslashFollowed(s);
    if i < |l| {
      var j := FirstBackslash(e);
      assert forall k | 0 <= k < |w| :: l[k] == w[k];
      assert i >= |w| && l[i] == e[i - |w|];
      assert l[|w| + j] == e[j];
      assert i == |w| + j && l[i + 1..][0] == e[j + 1];
      NotBlank(l[i + 1..]);
    }
  }

  lemma NotBlank(s: Bytes)
    requires s != [] && 0x20 < s[0] < 0x80
    ensures !AllSpace(s)
  {}

  lemma NewlineEnds(a: Bytes, newline: Bytes)
    requires newline in {[LF], [CR], [CR, LF]}
    ensures FinalCR(a + newline) == (newline == [CR]) && FinalCR(newline) == (newline == [CR])
  {}

  lemma FinalOf(a: Bytes, b: Bytes)
    requires b != []
    ensures FinalCR(a + b) == FinalCR(b)
  {}

  /** Written and indented text ends in a carriage return where the text does, and never in a lone backslash. */
  lemma {:induction false} WrittenEnds(t: Bytes, w: Bytes)
    requires InlineSpace(w)
    ensures FinalCR(Indent(EscapeLines(t), w)) == FinalCR(t)
    ensures ClosingEscape(LastLine(Indent(EscapeLines(t), w))).None?
    ensures t == [] <==> Indent(EscapeLines(t), w) == []
    decreases |t|
  {
    hide FirstLine, LastNewline, ClosingEscape, AllSpace, EscapeAll, EscapeLines, LastLine, FinalCR;
    if t == [] {
      EscapedNothingAtAll();
      NoLastNewline([]);
      NoEscapeInNothing();
      WholeLine([]);
    } else {
      var p := FirstLine(t);
      var e := EscapeAll(p.line, QUOTE);
      var s := Indent(EscapeLines(t), w);
      EscapedFirstLine(t);
      IndentFirstLine(EscapeLines(t), w);
      LastLineOfRest(s);
      WrittenEnds(p.rest, w);
      EscapedLine(p.line);
      EscapedNothing();
      var line := if e == [] then [] else w + e;
      var rest := Indent(EscapeLines(p.rest), w);
      if p.newline == [] {
        NoClosingEscapeWritten(w, p.line);
        assert s == w + e && t == p.line;
        NewlineFreeEnds(s);
        NewlineFreeEnds(t);
      } else {
        FirstNewlineShape(t);
        assert s == line + p.newline + rest && t == p.line + p.newline + p.rest;
        EndsAlike(line, p.line, p.newline, rest, p.rest);
      }
    }
  }

  lemma EndsAlike(a: Bytes, b: Bytes, newline: Bytes, c: Bytes, d: Bytes)
    requires newline in {[LF], [CR], [CR, LF]} && (c == [] <==> d == []) && FinalCR(c) == FinalCR(d)
    ensures FinalCR(a + newline + c) == FinalCR(b + newline + d)
  {
    NewlineEnds(a, newline);
    NewlineEnds(b, newline);
    if c == [] {
      assert a + newline + c == a + newline && b + newline + d == b + newline;
    } else {
      FinalOf(a + newline, c);
      FinalOf(b + newline, d);
    }
  }

  lemma NewlineFreeEnds(s: Bytes)
    requires NewlineFree(s)
    ensures !FinalCR(s)
  {}

  lemma EscapedNothingAtAll()
    ensures EscapeLines([]) == [] && Indent([], []) == [] && !FinalCR([]) && forall w :: Indent([], w) == []
  {}

  // ---------- Whole tokens ----------

  /** The text t in triple quotes, its lines written with escapes and indented by w, up to the last newline. */
  function Written(t: Bytes, w: Bytes): Bytes { Indent(EscapeLines(t), w) }

  /** The token closed on a line w. */
  function TripleQuote(t: Bytes, w: Bytes): Bytes { TRIPLE + ([LF] + Written(t, w) + [LF] + w) + TRIPLE }

  lemma TripleInner(inner: Bytes)
    ensures UnquoteMultiLineToken(TRIPLE + inner + TRIPLE, TRIPLE, QUOTE, true) == DecodeLines(inner, 0, QUOTE)
  {
    hide DecodeLines;
    var s := TRIPLE + inner + TRIPLE;
    Tripled(inner);
    assert HashRun(s) == 0;
    assert s[0..|s| - 0] == s;
  }

  lemma LinesFrom(rest: Bytes)
    ensures var inner := [LF] + rest;
            && inner[1..] == rest && FirstNewline(inner) == Some(Newline.Newline(0, 1)) && inner[..0] == [] && InlineSpace([])
  {}

  /** Decoding once the end of the content is known. */
  lemma WrittenDecodes(t: Bytes, w: Bytes, closing: bool, rest: Bytes)
    requires InlineSpace(w) && ParseMultilineTail(rest) == Some(Tail(Written(t, w), w, closing))
    ensures DecodeLines([LF] + rest, 0, QUOTE) == if Quotable(t) then Some((Kept(t, w, false), 0)) else None
  {
    hide ParseMultilineTail, InlineSpace, FirstNewline, Written, Quotable, UnescapeContent, Redent, EscapeLines, Dedent;
    var d := Redent(EscapeLines(t), w, false);
    LinesFrom(rest);
    WrittenDedents(t, w);
    var text := if closing then [BACKSLASH] else [];
    RedentDecodes(t, w, false, text, closing);
    LastBackslash(closing);
    assert d + [] == d;
    assert Kept(t, w, false) + [] == Kept(t, w, false);
  }

  lemma WrittenDedents(t: Bytes, w: Bytes)
    requires InlineSpace(w)
    ensures Dedent(Written(t, w), w, false) == Some(Redent(EscapeLines(t), w, false))
  {
    DedentIndented(EscapeLines(t), w, false);
  }

  lemma LastBackslash(closing: bool)
    ensures UnescapeContent(if closing then [BACKSLASH] else [], QUOTE, closing) == Some([])
  {
    var s: Bytes := [BACKSLASH];
    assert s[1..] == [];
    assert ContentEscapeAt(s, QUOTE, true) == Some(Escape(1, []));
    assert UnescapeContent([], QUOTE, closing) == Some([]);
    PrependNothing(Some([]));
  }

  /** The closing line is the indentation: the last newline is not part of the text. */
  lemma PlainTail(t: Bytes, w: Bytes)
    requires InlineSpace(w) && !FinalCR(t)
    ensures ParseMultilineTail(Written(t, w) + [LF] + w) == Some(Tail(Written(t, w), w, false))
  {
    hide ParseMultilineTail;
    WrittenEnds(t, w);
    TailOfRaw(Written(t, w), w);
  }

  /** Blanks, a backslash and blanks. */
  function EscapedClose(w: Bytes, v: Bytes): Bytes { w + [BACKSLASH] + v }

  lemma ClosingEscapeOf(w: Bytes, v: Bytes)
    requires InlineSpace(w) && InlineSpace(v)
    ensures ClosingEscape(EscapedClose(w, v)) == Some(|w|) && EscapedClose(w, v)[..|w|] == w
    ensures NewlineFree(EscapedClose(w, v))
  {
    var l := EscapedClose(w, v);
    hide AllSpace;
    NoBackslash(w);
    assert l == w + ([BACKSLASH] + v) && l[|w|] == BACKSLASH && l[|w| + 1..] == v && l[..|w|] == w;
    assert forall k | 0 <= k < |w| :: l[k] == w[k] != BACKSLASH;
    assert forall k | 0 <= k < |v| :: l[|w| + 1 + k] == v[k];
  }

  /** A closing line with a backslash after the indentation. */
  lemma EscapedTail(t: Bytes, w: Bytes, v: Bytes)
    requires InlineSpace(w) && InlineSpace(v) && !FinalCR(t)
    ensures ParseMultilineTail(Written(t, w) + [LF] + EscapedClose(w, v)) == Some(Tail(Written(t, w), w, true))
  {
    hide LastNewline, ClosingEscape, InlineSpace, FinalCR, Written, EscapedClose;
    var content, l := Written(t, w), EscapedClose(w, v);
    var inner := content + [LF] + l;
    assert !FinalCR(content) by { WrittenCR(t, w); }
    ClosingEscapeOf(w, v);
    ClosingLineStart(content, l);
    assert inner[|content| + 1..] == l && inner[..|content|] == content;
  }

  lemma WrittenCR(t: Bytes, w: Bytes)
    requires InlineSpace(w)
    ensures FinalCR(Written(t, w)) == FinalCR(t)
  {
    WrittenEnds(t, w);
  }

  /** A last line with nothing but a backslash, before the closing line. */
  lemma EscapedLineTail(t: Bytes, w: Bytes, v: Bytes, u: Bytes)
    requires InlineSpace(w) && InlineSpace(v) && InlineSpace(u) && !FinalCR(t)
    ensures ParseMultilineTail(Written(t, w) + [LF] + (EscapedClose(w, v) + [LF] + u)) == Some(Tail(Written(t, w), w, true))
  {
    hide LastNewline, ClosingEscape, FinalCR, Written, EscapedClose, AllSpace;
    var content, l := Written(t, w), EscapedClose(w, v);
    var prefix := content + [LF] + l;
    var inner := content + [LF] + (l + [LF] + u);
    assert inner == prefix + [LF] + u;
    assert !FinalCR(content) by { WrittenCR(t, w); }
    ClosingEscapeOf(w, v);
    EscapedEnd(content, w, v);
    ClosingLineStart(content, l);
    ClosingLineStart(prefix, u);
    NoClosingEscape(u);
    assert inner[|prefix| + 1..] == u && inner[..|prefix|] == prefix;
    assert prefix[|content| + 1..] == l && prefix[..|content|] == content;
  }

  lemma EscapedEnd(content: Bytes, w: Bytes, v: Bytes)
    requires InlineSpace(w) && InlineSpace(v)
    ensures !FinalCR(content + [LF] + EscapedClose(w, v))
  {
    ClosingEscapeOf(w, v);
    NewlineFreeEnds(EscapedClose(w, v));
    FinalOf(content + [LF], EscapedClose(w, v));
  }

  /** A carriage return before the closing line is part of its newline. */
  lemma ReturnTail(t: Bytes, w: Bytes)
    requires InlineSpace(w)
    ensures ParseMultilineTail(Written(t, w) + [CR] + [LF] + w) == Some(Tail(Written(t, w), w, false))
  {
    hide LastNewline, ClosingEscape, AllSpace, Written;
    var content := Written(t, w);
    var inner := content + [CR] + [LF] + w;
    assert inner == content + [CR, LF] + w;
    WrittenEscape(t, w);
    NoClosingEscape(w);
    NoLastNewline(w);
    LastNewlineAfter(content + [CR, LF], w);
    ReturnLast(content);
    assert inner[|content| + 2..] == w && inner[..|content|] == content;
  }

  lemma ReturnLast(s: Bytes)
    ensures LastNewline(s + [CR, LF]) == Some(Newline.Newline(|s|, 2))
  {}

  lemma WrittenEscape(t: Bytes, w: Bytes)
    requires InlineSpace(w)
    ensures ClosingEscape(LastLine(Written(t, w))).None?
  {
    WrittenEnds(t, w);
  }

  /** A text that ends in a carriage return loses it: it becomes part of the last newline. */
  lemma {:induction false} WrittenReturn(t: Bytes, w: Bytes)
    requires NewlineFree(w)
    ensures Written(t + [CR], w) == Written(t, w) + [CR]
    decreases |t|
  {
    hide FirstLine, EscapeAll, EscapeLines, Indent;
    if t == [] {
      ReturnWritten(w);
      assert [] + [CR] == [CR];
    } else {
      ReturnLine(t);
      var p := FirstLine(t);
      var e := EscapeAll(p.line, QUOTE);
      WrittenReturn(p.rest, w);
      WrittenLine(t, w);
      WrittenLine(t + [CR], w);
      ReturnWritten(w);
    }
  }

  lemma WrittenLine(t: Bytes, w: Bytes)
    requires t != [] && NewlineFree(w)
    ensures var p := FirstLine(t);
            var e := EscapeAll(p.line, QUOTE);
            Written(t, w) == (if e == [] then [] else w + e) + p.newline + Written(p.rest, w)
  {
    hide FirstLine, EscapeAll;
    EscapedFirstLine(t);
  }

  lemma ReturnWritten(w: Bytes)
    ensures Written([], w) == [] && Written([CR], w) == [CR]
  {
    assert FirstLine([CR]) == Split([], [CR], []);
    EscapedNothing();
  }

  lemma ReturnLine(t: Bytes)
    requires t != []
    ensures var p := FirstLine(t);
            FirstLine(t + [CR]) == if p.newline == [] then Split(p.line, [CR], []) else Split(p.line, p.newline, p.rest + [CR])
  {
    hide FirstNewline, FirstLine;
    var p := FirstLine(t);
    if p.newline == [] {
      assert t + [CR] == p.line + [CR] + [];
      WholeNewline([CR], []);
      assert [CR] + [] == [CR];
      FirstLineIs(p.line, [CR], []);
    } else {
      FirstNewlineShape(t);
      assert t + [CR] == p.line + p.newline + (p.rest + [CR]);
      assert p.rest != [] ==> (p.rest + [CR])[0] == p.rest[0];
      WholeNewline(p.newline, p.rest + [CR]);
      FirstLineIs(p.line, p.newline, p.rest + [CR]);
    }
  }

  /** What a token of escaped, indented lines is decoded to, for every text and indentation. */
  lemma TripleQuoteDecodes(t: Bytes, w: Bytes)
    requires InlineSpace(w)
    ensures var s := if FinalCR(t) then t[..|t| - 1] else t;
            UnquoteMultiLineToken(TripleQuote(t, w), TRIPLE, QUOTE, true)
            == if Quotable(t) then Some((Kept(s, w, false), 0)) else None
  {
    hide Written, InlineSpace, ParseMultilineTail, DecodeLines, Kept, Quotable, UnquoteMultiLineToken, LastNewline;
    var rest := Written(t, w) + [LF] + w;
    assert TripleQuote(t, w) == TRIPLE + ([LF] + rest) + TRIPLE;
    TripleInner([LF] + rest);
    if FinalCR(t) {
      var s := t[..|t| - 1];
      assert t == s + [CR];
      SpaceIsLine(w);
      WrittenReturn(s, w);
      ReturnTail(s, w);
      WrittenDecodes(s, w, false, rest);
      QuotableReturn(s);
    } else {
      PlainTail(t, w);
      WrittenDecodes(t, w, false, rest);
    }
  }

  lemma SpaceIsLine(w: Bytes)
    requires InlineSpace(w)
    ensures NewlineFree(w)
  {}

  lemma QuotableReturn(s: Bytes)
    ensures Quotable(s + [CR]) <==> Quotable(s)
  {
    hide Quotable;
    EscapedNothing();
    QuotableConcat(s, [CR]);
    assert [CR] + [] == [CR];
    QuotableByte(CR, []);
  }

  /**
    The text comes back exactly when it can be quoted, does not end in a carriage return, has no line of
    blanks, and, where there is an indentation, no line but an empty one after a line that ends in a backslash.
   */
  lemma TripleRoundTrip(t: Bytes, w: Bytes)
    requires InlineSpace(w)
    ensures UnquoteMultiLineToken(TripleQuote(t, w), TRIPLE, QUOTE, true) == Some((t, 0))
       <==> Quotable(t) && !FinalCR(t) && Stays(EscapeLines(t), w, false)
    ensures ValueFromToken(Token(QuotedString, TripleQuote(t, w), 0, 0)) == Some(Str(t))
       <==> Quotable(t) && !FinalCR(t) && Stays(EscapeLines(t), w, false)
  {
    hide Kept, Stays, Quotable, UnquoteMultiLineToken, TripleQuote, InlineSpace, FinalCR, ValueFromToken;
    TripleQuoteDecodes(t, w);
    TripleValue(t, w);
    KeptWhole(t, w);
  }

  lemma KeptWhole(t: Bytes, w: Bytes)
    requires InlineSpace(w)
    ensures Kept(if FinalCR(t) then t[..|t| - 1] else t, w, false) == t <==> !FinalCR(t) && Stays(EscapeLines(t), w, false)
  {
    hide Kept, Stays, EscapeLines;
    KeptSame(t, w, false, []);
    assert t + [] == t;
    if FinalCR(t) {
      var s := t[..|t| - 1];
      assert t == s + [CR];
      KeptSame(s, w, false, [CR]);
    }
  }

  lemma TripleValue(t: Bytes, w: Bytes)
    ensures var r := UnquoteMultiLineToken(TripleQuote(t, w), TRIPLE, QUOTE, true);
            ValueFromToken(Token(QuotedString, TripleQuote(t, w), 0, 0)) == if r.None? then None else Some(Str(r.value.0))
  {
    hide UnquoteMultiLineToken;
    var q := TripleQuote(t, w);
    assert HashRun(q) == 0 && q[0..] == q && TRIPLE <= q;
  }

  /**
    A backslash after the closing indentation, or alone on the line before the closing one, makes no
    difference: the newline before it is dropped.
   */
  lemma EscapedClosing(t: Bytes, w: Bytes, v: Bytes, u: Bytes)
    requires InlineSpace(w) && InlineSpace(v) && InlineSpace(u) && !FinalCR(t)
    ensures var plain := UnquoteMultiLineToken(TripleQuote(t, w), TRIPLE, QUOTE, true);
            var closing := TRIPLE + ([LF] + (Written(t, w) + [LF] + EscapedClose(w, v))) + TRIPLE;
            var before := TRIPLE + ([LF] + (Written(t, w) + [LF] + (EscapedClose(w, v) + [LF] + u))) + TRIPLE;
            && UnquoteMultiLineToken(closing, TRIPLE, QUOTE, true) == plain
            && UnquoteMultiLineToken(before, TRIPLE, QUOTE, true) == plain
  {
    hide Written, InlineSpace, ParseMultilineTail, DecodeLines, Kept, Quotable, UnquoteMultiLineToken, EscapedClose, TripleQuote;
    TripleQuoteDecodes(t, w);
    var closing := Written(t, w) + [LF] + EscapedClose(w, v);
    var before := Written(t, w) + [LF] + (EscapedClose(w, v) + [LF] + u);
    TripleInner([LF] + closing);
    TripleInner([LF] + before);
    EscapedTail(t, w, v);
    EscapedLineTail(t, w, v, u);
    WrittenDecodes(t, w, true, closing);
    WrittenDecodes(t, w, true, before);
  }

  // ---------- Bad escapes ----------

  /** An ASCII character that is neither a blank nor one of those a backslash may stand before. */
  predicate NoEscapeLetter(c: byte) {
    && 0x20 < c < 0x80
    && c !in {QUOTE, BACKSLASH, 'n' as int, 'r' as int, 't' as int, 'b' as int, 'f' as int, 's' as int, 'u' as int}
  }

  /** Written text, then a backslash before such a character, then anything. */
  function BadText(s: Bytes, c: byte, more: Bytes): Bytes { EscapeAll(s, QUOTE) + ([BACKSLASH, c] + more) }

  lemma BadTextFails(s: Bytes, c: byte, more: Bytes, allow: bool)
    requires NoEscapeLetter(c)
    ensures UnescapeContent(BadText(s, c, more), QUOTE, allow) == None
  {
    EscapedContent(s, [BACKSLASH, c] + more, allow);
    var t := [BACKSLASH, c] + more;
    assert t[1..][0] == c;
    assert ContentEscapeAt(t, QUOTE, allow) == None;
    hide EscapeAll, Quotable;
  }

  lemma BadLine(s: Bytes, c: byte, more: Bytes)
    requires NoEscapeLetter(c)
    ensures var x := BadText(s, c, more);
            var p, q := FirstLine(x), FirstLine(more);
            p.line == BadText(s, c, q.line) && !AllSpace(p.line)
  {
    hide EscapeAll, FirstNewline, FirstLine, AllSpace;
    var front := EscapeAll(s, QUOTE) + [BACKSLASH, c];
    var q := FirstLine(more);
    EscapedLine(s);
    if q.newline != [] {
      FirstNewlineShape(more);
      WholeNewline(q.newline, q.rest);
    }
    assert BadText(s, c, more) == front + q.line + q.newline + q.rest;
    assert BadText(s, c, q.line) == front + q.line;
    FirstLineIs(front + q.line, q.newline, q.rest);
    HoldsBackslash(EscapeAll(s, QUOTE), [c] + q.line);
    assert BadText(s, c, q.line) == EscapeAll(s, QUOTE) + ([BACKSLASH] + ([c] + q.line));
  }

  lemma HoldsBackslash(a: Bytes, b: Bytes)
    ensures !AllSpace(a + ([BACKSLASH] + b))
  {
    hide AllSpace;
    var s := a + ([BACKSLASH] + b);
    assert s[|a|] == BACKSLASH;
    if AllSpace(s) {
      NoBackslash(s);
    }
  }

  /** A bad escape survives dedenting, wherever its line stands. */
  lemma {:induction false} BadEscapeStays(t: Bytes, s: Bytes, c: byte, more: Bytes, w: Bytes, continued: bool, allow: bool)
    requires InlineSpace(w) && NoEscapeLetter(c)
    requires t == [] || IsNewlineByte(t[|t| - 1])
    ensures UnescapeContent(Redent(EscapeLines(t) + BadText(s, c, more), w, continued), QUOTE, allow) == None
    decreases |t|
  {
    hide UnescapeContent, FirstLine, EscapeAll, AllSpace, HasLineContinuation, BadText, EscapeLines, Redent, NoEscapeLetter;
    var bad := BadText(s, c, more);
    var x := EscapeLines(t) + bad;
    if t == [] {
      EscapedNothingAtAll();
      assert x == bad;
      BadLine(s, c, more);
      BadStarts(s, c, more);
      RedentStep(bad, w, continued);
      var p := FirstLine(bad);
      var tail := p.newline + Redent(p.rest, w, HasLineContinuation(p.line));
      BadJoin(s, c, FirstLine(more).line, tail);
      BadTextFails(s, c, FirstLine(more).line + tail, allow);
      if continued {
        SpacesStand(w, p.line + tail, allow);
        assert w + p.line + p.newline + Redent(p.rest, w, HasLineContinuation(p.line)) == w + (p.line + tail);
      } else {
        assert p.line + p.newline + Redent(p.rest, w, HasLineContinuation(p.line)) == p.line + tail;
      }
    } else {
      var p := FirstLine(t);
      var e := EscapeAll(p.line, QUOTE);
      var next := HasLineContinuation(e);
      LineBeforeBad(t, s, c, more);
      BadEscapeStays(p.rest, s, c, more, w, next, allow);
      RedentStep(x, w, continued);
      FirstNewlineShape(t);
      LineDecodes(p.line, p.newline, w, continued, Redent(EscapeLines(p.rest) + bad, w, next), allow);
    }
  }

  lemma BadStarts(s: Bytes, c: byte, more: Bytes)
    ensures BadText(s, c, more) != []
    ensures BadText(s, c, more)[0] != LF
  {
    hide EscapeAll;
    EscapedLine(s);
    var e := EscapeAll(s, QUOTE);
    assert BadText(s, c, more)[0] == if e == [] then BACKSLASH else e[0];
  }

  lemma BadJoin(s: Bytes, c: byte, a: Bytes, b: Bytes)
    ensures BadText(s, c, a) + b == BadText(s, c, a + b)
  {
    hide EscapeAll;
    assert [BACKSLASH, c] + (a + b) == [BACKSLASH, c] + a + b;
  }

  /** The first line of a text that ends with a newline, when a bad line follows. */
  lemma LineBeforeBad(t: Bytes, s: Bytes, c: byte, more: Bytes)
    requires t != [] && IsNewlineByte(t[|t| - 1])
    ensures var p, bad := FirstLine(t), BadText(s, c, more);
            && p.newline != [] && (p.rest == [] || IsNewlineByte(p.rest[|p.rest| - 1]))
            && EscapeLines(t) + bad != []
            && FirstLine(EscapeLines(t) + bad) == Split(EscapeAll(p.line, QUOTE), p.newline, EscapeLines(p.rest) + bad)
  {
    hide EscapeAll, FirstNewline, BadText, FirstLine, EscapeLines;
    var p, bad := FirstLine(t), BadText(s, c, more);
    var e := EscapeAll(p.line, QUOTE);
    EscapedLine(p.line);
    BadStarts(s, c, more);
    LastIsNewline(t);
    FirstNewlineShape(t);
    LastOfRest(t, p);
    BadRest(p.rest, bad);
    WholeNewline(p.newline, EscapeLines(p.rest) + bad);
    FirstLineIs(e, p.newline, EscapeLines(p.rest) + bad);
    assert EscapeLines(t) + bad == e + p.newline + (EscapeLines(p.rest) + bad) by { EscapedLines(t, bad); }
  }

  lemma LastOfRest(t: Bytes, p: Split)
    requires t == p.line + p.newline + p.rest
    ensures p.rest != [] ==> t[|t| - 1] == p.rest[|p.rest| - 1]
  {}

  lemma EscapedLines(t: Bytes, b: Bytes)
    requires t != []
    ensures var p := FirstLine(t);
            EscapeLines(t) + b == EscapeAll(p.line, QUOTE) + p.newline + (EscapeLines(p.rest) + b)
  {
    hide EscapeAll, FirstLine;
  }

  lemma BadRest(t: Bytes, bad: Bytes)
    requires bad != [] && bad[0] != LF
    ensures EscapeLines(t) + bad != []
    ensures (EscapeLines(t) + bad)[0] == LF ==> t != [] && t[0] == LF
  {
    hide EscapeLines;
    EscapedStart(t);
    if EscapeLines(t) == [] {
      assert EscapeLines(t) + bad == bad;
    }
  }

  lemma LastIsNewline(t: Bytes)
    requires t != [] && IsNewlineByte(t[|t| - 1])
    ensures FirstLine(t).newline != []
  {
    hide FirstNewline;
  }

  /** So a token with a bad escape on any line, whatever the lines after it hold, is refused. */
  lemma BadEscapeRefused(t: Bytes, s: Bytes, c: byte, more: Bytes, w: Bytes)
    requires InlineSpace(w) && NoEscapeLetter(c)
    requires t == [] || IsNewlineByte(t[|t| - 1])
    requires var content := Indent(EscapeLines(t) + BadText(s, c, more), w);
             !FinalCR(content) && ClosingEscape(LastLine(content)).None?
    ensures var content := Indent(EscapeLines(t) + BadText(s, c, more), w);
            UnquoteMultiLineToken(TRIPLE + ([LF] + (content + [LF] + w)) + TRIPLE, TRIPLE, QUOTE, true) == None
  {
    hide InlineSpace, ParseMultilineTail, UnquoteMultiLineToken, FirstNewline, Redent, Indent, Dedent, UnescapeContent;
    hide BadText, EscapeLines, NoEscapeLetter, ClosingEscape, LastLine;
    var x := EscapeLines(t) + BadText(s, c, more);
    var content := Indent(x, w);
    TripleInner([LF] + (content + [LF] + w));
    TailOfRaw(content, w);
    LinesFrom(content + [LF] + w);
    DedentIndented(x, w, false);
    BadEscapeStays(t, s, c, more, w, false, false);
  }

  // ---------- The first line and the last ----------

  /** After the opening quotes only blanks are allowed, and they do not matter. */
  lemma OpeningLine(o: Bytes, rest: Bytes)
    requires NewlineFree(o)
    ensures DecodeLines(o + [LF] + rest, 0, QUOTE) == if InlineSpace(o) then DecodeLines([LF] + rest, 0, QUOTE) else None
  {
    hide ParseMultilineTail, Dedent, UnescapeContent, InlineSpace, FirstNewline;
    var inner := o + [LF] + rest;
    LinesFrom(rest);
    assert inner == o + ([LF] + rest);
    FirstNewlineAfter(o, [LF] + rest);
    assert inner[..|o|] == o && inner[|o| + 1..] == rest;
  }

  /** Nor is anything but blanks, or a backslash among them, before the closing quotes. */
  lemma ClosingLine(content: Bytes, l: Bytes)
    requires NewlineFree(l) && !FinalCR(content)
    ensures !InlineSpace(l) && ClosingEscape(l).None? ==> DecodeLines([LF] + (content + [LF] + l), 0, QUOTE) == None
  {
    hide Dedent, UnescapeContent, InlineSpace, FirstNewline, LastNewline, ClosingEscape;
    var rest := content + [LF] + l;
    LinesFrom(rest);
    ClosingLineStart(content, l);
    assert rest[|content| + 1..] == l;
  }

  /** Without a second newline there is no content: the text is empty, or refused. */
  lemma OneLineContent(l: Bytes)
    requires NewlineFree(l)
    ensures DecodeLines([LF] + l, 0, QUOTE) == if InlineSpace(l) || ClosingEscape(l).Some? then Some(([], 0)) else None
  {
    hide FirstNewline, ClosingEscape, AllSpace;
    LinesFrom(l);
    NoLastNewline(l);
    var e := ClosingEscape(l);
    if e.Some? {
      BlanksBefore(l);
      LastBackslash(true);
      assert [] + [BACKSLASH] == [BACKSLASH];
    }
  }

  lemma BlanksBefore(l: Bytes)
    requires ClosingEscape(l).Some?
    ensures InlineSpace(l[..ClosingEscape(l).value])
  {}

  // ---------- Between backticks ----------

  /** Text without a backslash stands for itself. */
  lemma {:induction false} PlainContent(s: Bytes, quote: byte)
    requires Valid(s) && BACKSLASH !in s
    ensures UnescapeContent(s, quote, false) == Some(s)
    decreases |s|
  {
    hide Decode, Encode, ContentEscapeAt;
    if s != [] {
      var n := Decode(s).size;
      EncodeDecode(s);
      PlainContent(s[n..], quote);
      assert s[..n] + s[n..] == s;
    }
  }

  /** An expression between triple backticks is dedented like a raw string. */
  lemma BacktickRoundTrip(t: Bytes, w: Bytes)
    requires InlineSpace(w) && Indentable(t) && !FinalCR(t) && Valid(t) && BACKSLASH !in t
    ensures var token := TRIPLE_BACKTICK + ([LF] + (Indent(t, w) + [LF] + w)) + TRIPLE_BACKTICK;
            ValueFromToken(Token(ExpressionString, token, 0, 0)) == Some(Expr(t))
  {
    hide DecodeLines, UnescapeContent, Indent, InlineSpace;
    var rest := Indent(t, w) + [LF] + w;
    BacktickInner([LF] + rest);
    assert DecodeLines([LF] + rest, 0, BACKTICK) == Some((t, 0)) by { BacktickLines(t, w); }
  }

  lemma BacktickInner(inner: Bytes)
    ensures var token := TRIPLE_BACKTICK + inner + TRIPLE_BACKTICK;
            var r := DecodeLines(inner, 0, BACKTICK);
            ValueFromToken(Token(ExpressionString, token, 0, 0)) == if r.None? then None else Some(Expr(r.value.0))
  {
    hide DecodeLines;
    var token := TRIPLE_BACKTICK + inner + TRIPLE_BACKTICK;
    assert token == TRIPLE_BACKTICK + (inner + TRIPLE_BACKTICK);
    assert token[|token| - 3..] == TRIPLE_BACKTICK && token[3..|token| - 3] == inner && token[0..|token| - 0] == token;
  }

  lemma BacktickLines(t: Bytes, w: Bytes)
    requires InlineSpace(w) && Indentable(t) && !FinalCR(t) && Valid(t) && BACKSLASH !in t
    ensures DecodeLines([LF] + (Indent(t, w) + [LF] + w), 0, BACKTICK) == Some((t, 0))
  {
    hide UnescapeContent, Indent, InlineSpace, ParseMultilineTail, Dedent, FirstNewline, Valid, Indentable;
    IndentEnds(t, w);
    TailOfRaw(Indent(t, w), w);
    LinesFrom(Indent(t, w) + [LF] + w);
    DedentIndent(t, w);
    PlainContent(t, BACKTICK);
  }

  // ---------- The shape of a token ----------

  /** Only a token that is closed as it is opened is decoded. */
  lemma TokenShape(token: Bytes) returns (h: nat, inner: Bytes)
    requires UnquoteMultiLineToken(token, TRIPLE, QUOTE, true).Some?
    ensures token == Hashes(h) + (TRIPLE + inner + TRIPLE) + Hashes(h)
    ensures UnquoteMultiLineToken(token, TRIPLE, QUOTE, true) == DecodeLines(inner, h, QUOTE)
  {
    hide DecodeLines;
    h := HashRun(token);
    var n := |token| - h;
    var s := token[h..n];
    inner := s[3..|s| - 3];
    assert s == TRIPLE + inner + TRIPLE;
    assert token[..h] == Hashes(h);
    if h > 0 {
      var suffix := TRIPLE + Hashes(h);
      assert token[|token| - |suffix|..][3..] == Hashes(h) == token[n..];
    } else {
      assert token[n..] == Hashes(0);
    }
    assert token == token[..h] + s + token[n..];
  }
}
