/**
  Triple-quoted strings: finding the closing line, stripping its indentation from the content, and
  decoding the result.
 */
module Multiline {
  import opened Wrappers
  import opened Utf8
  import opened Quoted

  const HASH: byte := '#' as int
  const LF: byte := 0x0A
  const CR: byte := 0x0D
  const TRIPLE: Bytes := [QUOTE, QUOTE, QUOTE]

  // ---------- Lines ----------

  /** Where a newline starts and how long it is. */
  datatype Newline = Newline(at: nat, len: nat)

  predicate IsNewlineByte(c: byte) { c == LF || c == CR }

  predicate NewlineFree(s: Bytes) {
    forall i | 0 <= i < |s| :: !IsNewlineByte(s[i])
  }

  predicate CRLFAt(s: Bytes, i: nat) {
    i + 1 < |s| && s[i] == CR && s[i + 1] == LF
  }

  function FirstNewline(s: Bytes): (n: Option<Newline>)
    ensures n.Some? ==> n.value.at + n.value.len <= |s| && 1 <= n.value.len <= 2
    ensures n.Some? ==> NewlineFree(s[..n.value.at]) && IsNewlineByte(s[n.value.at])
    ensures n.None? ==> NewlineFree(s)
  {
    if s == [] then None
    else if s[0] == LF then Some(Newline(0, 1))
    else if s[0] == CR then Some(Newline(0, if |s| > 1 && s[1] == LF then 2 else 1))
    else
      var n := FirstNewline(s[1..]);
      if n.None? then None
      else
        assert s[..n.value.at + 1] == [s[0]] + s[1..][..n.value.at];
        Some(Newline(n.value.at + 1, n.value.len))
  }

  function LastNewline(s: Bytes): (n: Option<Newline>)
    ensures n.Some? ==> n.value.at + n.value.len <= |s| && 1 <= n.value.len <= 2
  {
    if s == [] then None
    else
      var i := |s| - 1;
      if s[i] == LF then if i > 0 && s[i - 1] == CR then Some(Newline(i - 1, 2)) else Some(Newline(i, 1))
      else if s[i] == CR then Some(Newline(i, 1))
      else LastNewline(s[..i])
  }

  method FindFirstNewline(s: Bytes) returns (at: int, len: int)
    ensures at >= -1 && (at == -1 ==> len == 0) && len >= 0
    ensures FirstNewline(s) == if at == -1 then None else Some(Newline(at, len))
  {
    hide CRLFAt;
    var i := 0;
    assert s[0..] == s;
    while i < |s|
      invariant 0 <= i <= |s|
      invariant FirstNewline(s) == Shift(FirstNewline(s[i..]), i)
    {
      assert s[i..][1..] == s[i + 1..];
      if s[i] == LF {
        return i, 1;
      }
      if s[i] == CR {
        if i + 1 < |s| && s[i + 1] == LF {
          return i, 2;
        }
        return i, 1;
      }
      i := i + 1;
    }
    return -1, 0;
  }

  function Shift(n: Option<Newline>, i: nat): Option<Newline> {
    if n.None? then None else Some(Newline(n.value.at + i, n.value.len))
  }

  method FindLastNewline(s: Bytes) returns (at: int, len: int)
    ensures at >= -1 && (at == -1 ==> len == 0) && len >= 0
    ensures LastNewline(s) == if at == -1 then None else Some(Newline(at, len))
  {
    var i := |s| - 1;
    assert s[..|s|] == s;
    while i >= 0
      invariant -1 <= i < |s|
      invariant LastNewline(s) == LastNewline(s[..i + 1])
    {
      assert s[..i + 1][..i] == s[..i];
      if s[i] == LF {
        if i > 0 && s[i - 1] == CR {
          return i - 1, 2;
        }
        return i, 1;
      }
      if s[i] == CR {
        return i, 1;
      }
      i := i - 1;
    }
    return -1, 0;
  }

  // ---------- Whitespace ----------

  /** strings.TrimSpace(s) == "" */
  predicate AllSpace(s: Bytes)
    decreases |s|
  {
    s == [] || (IsSpace(Decode(s).r) && AllSpace(s[Decode(s).size..]))
  }

  predicate InlineSpace(s: Bytes) {
    AllSpace(s) && NewlineFree(s)
  }

  /** A newline byte is always a rune of its own. */
  lemma NewlineFirst(s: Bytes)
    requires s != []
    ensures NewlineFree(s) <==> Decode(s).r != LF && Decode(s).r != CR && NewlineFree(s[Decode(s).size..])
  {
    var n := Decode(s).size;
    assert forall i | n <= i < |s| :: s[i] == s[n..][i - n];
    if n > 1 {
      MultiByte(s);
    }
  }

  method IsInlineWhitespaceOnly(s: Bytes) returns (yes: bool)
    ensures yes == InlineSpace(s)
  {
    hide Decode, IsSpace;
    var i := 0;
    assert s[0..] == s;
    while i < |s|
      invariant 0 <= i <= |s|
      invariant InlineSpace(s) == InlineSpace(s[i..])
      decreases |s| - i
    {
      var d := Decode(s[i..]);
      NewlineFirst(s[i..]);
      assert s[i..][d.size..] == s[i + d.size..];
      if d.r == LF || d.r == CR {
        return false;
      }
      if !IsSpace(d.r) {
        return false;
      }
      i := i + d.size;
    }
    return true;
  }

  /** Whether the last rune that is not whitespace is a backslash. */
  predicate HasLineContinuation(line: Bytes)
    decreases |line|
  {
    if line == [] then false
    else
      var d := DecodeLast(line);
      if !IsSpace(d.r) then d.r == BACKSLASH else HasLineContinuation(line[..|line| - d.size])
  }

  method ComputeHasLineContinuation(line: Bytes) returns (yes: bool)
    ensures yes == HasLineContinuation(line)
  {
    hide DecodeLast, IsSpace;
    var end := |line|;
    assert line[..end] == line;
    while end > 0
      invariant 0 <= end <= |line|
      invariant HasLineContinuation(line) == HasLineContinuation(line[..end])
    {
      var d := DecodeLast(line[..end]);
      if !IsSpace(d.r) {
        return d.r == BACKSLASH;
      }
      assert line[..end][..end - d.size] == line[..end - d.size];
      end := end - d.size;
    }
    return false;
  }

  /** Index of the first backslash. */
  function FirstBackslash(s: Bytes): (i: nat)
    ensures i <= |s| && (i < |s| ==> s[i] == BACKSLASH) && forall j | 0 <= j < i :: s[j] != BACKSLASH
  {
    if s == [] || s[0] == BACKSLASH then 0 else 1 + FirstBackslash(s[1..])
  }

  /** A line that holds a backslash and otherwise only whitespace; the value is the backslash's index. */
  function ClosingEscape(s: Bytes): (i: Option<nat>)
    ensures i.Some? ==> i.value < |s|
  {
    var i := FirstBackslash(s);
    if i < |s| && InlineSpace(s[..i]) && InlineSpace(s[i + 1..]) then Some(i) else None
  }

  method ParseMultilineClosingEscape(s: Bytes) returns (r: Option<nat>)
    ensures r == ClosingEscape(s)
  {
    hide Decode;
    var i := 0;
    while i < |s|
      invariant 0 <= i <= |s|
      invariant forall j | 0 <= j < i :: s[j] != BACKSLASH
      decreases |s| - i
    {
      var d := Decode(s[i..]);
      assert s[i..][0] == s[i];
      if d.r == BACKSLASH {
        assert FirstBackslash(s) == i;
        var before := IsInlineWhitespaceOnly(s[..i]);
        var after := IsInlineWhitespaceOnly(s[i + 1..]);
        if !before || !after {
          return None;
        }
        return Some(i);
      }
      if d.size > 1 {
        MultiByte(s[i..]);
        assert forall j | i <= j < i + d.size :: s[j] == s[i..][j - i];
      }
      i := i + d.size;
    }
    return None;
  }

  // ---------- Closing line ----------

  datatype Tail = Tail(content: Bytes, indent: Bytes, closingEscaped: bool)

  /** Splits the text after the opening line into content and the indentation of the closing line. */
  function ParseMultilineTail(inner: Bytes): Option<Tail> {
    match LastNewline(inner)
    case None =>
      var e := ClosingEscape(inner);
      Some(if e.Some? then Tail([], inner[..e.value], true) else Tail([], inner, false))
    case Some(nl) =>
      var closingLine, prefix := inner[nl.at + nl.len..], inner[..nl.at];
      var e := ClosingEscape(closingLine);
      if e.Some? then Some(Tail(prefix, closingLine[..e.value], true))
      else if !InlineSpace(closingLine) then None
      else
        var prev := LastNewline(prefix);
        var prevLine := if prev.Some? then prefix[prev.value.at + prev.value.len..] else prefix;
        var prevPrefix := if prev.Some? then prefix[..prev.value.at] else [];
        var pe := ClosingEscape(prevLine);
        if pe.Some? then Some(Tail(prevPrefix, prevLine[..pe.value], true))
        else Some(Tail(prefix, closingLine, false))
  }

  // ---------- Dedent ----------

  /** The first line of s, its newline, and what follows. */
  datatype Split = Split(line: Bytes, newline: Bytes, rest: Bytes)

  function FirstLine(s: Bytes): (p: Split)
    ensures s == p.line + p.newline + p.rest && NewlineFree(p.line)
    ensures s != [] ==> |p.rest| < |s|
    ensures p.newline == [] ==> p.rest == []
  {
    match FirstNewline(s)
    case None => Split(s, [], [])
    case Some(nl) => Split(s[..nl.at], s[nl.at..nl.at + nl.len], s[nl.at + nl.len..])
  }

  function Dedent(content: Bytes, indent: Bytes, continued: bool): Option<Bytes>
    decreases |content|
  {
    if content == [] then Some([])
    else
      var p := FirstLine(content);
      if AllSpace(p.line) then Prepend(p.newline, Dedent(p.rest, indent, HasLineContinuation(p.line)))
      else if !continued && !(indent <= p.line) then None
      else
        var kept := if continued then p.line else p.line[|indent|..];
        Prepend(kept + p.newline, Dedent(p.rest, indent, HasLineContinuation(p.line)))
  }

  method DedentMultilineContent(content0: Bytes, indent: Bytes) returns (res: Option<Bytes>)
    ensures res == Dedent(content0, indent, false)
  {
    if content0 == [] {
      return Some([]);
    }
    var content, result, continued := content0, [], false;
    PrependNothing(Dedent(content0, indent, false));
    while |content| > 0
      invariant Prepend(result, Dedent(content, indent, continued)) == Dedent(content0, indent, false)
      decreases |content|
    {
      ghost var p := FirstLine(content);
      ghost var prior := content;
      var lineEnd, newlineLen := FindFirstNewline(content);
      var line, newline := content, [];
      if lineEnd != -1 {
        line := content[..lineEnd];
        newline := content[lineEnd..lineEnd + newlineLen];
        content := content[lineEnd + newlineLen..];
      } else {
        content := [];
      }
      assert p == Split(line, newline, content);
      DedentStep(prior, indent, continued, result);
      if AllSpace(line) {
        result := result + newline;
        continued := ComputeHasLineContinuation(line);
        continue;
      }
      if !continued && !(indent <= line) {
        return None;
      }
      if continued {
        result := result + line;
      } else {
        result := result + line[|indent|..];
      }
      result := result + newline;
      continued := ComputeHasLineContinuation(line);
    }
    PrependNothing(Some(result));
    assert result + [] == result;
    res := Some(result);
  }

  lemma PrependNothing(o: Option<Bytes>)
    ensures Prepend([], o) == o
  {
    if o.Some? {
      assert [] + o.value == o.value;
    }
  }

  lemma DedentStep(content: Bytes, indent: Bytes, continued: bool, result: Bytes)
    requires content != []
    ensures var p := FirstLine(content);
            var next := Dedent(p.rest, indent, HasLineContinuation(p.line));
            Prepend(result, Dedent(content, indent, continued))
            == if AllSpace(p.line) then Prepend(result + p.newline, next)
               else if continued then Prepend(result + p.line + p.newline, next)
               else if indent <= p.line then Prepend(result + p.line[|indent|..] + p.newline, next)
               else None
  {
    hide FirstLine, AllSpace, HasLineContinuation;
    var p := FirstLine(content);
    var next := Dedent(p.rest, indent, HasLineContinuation(p.line));
    PrependAssoc(result, p.newline, next);
    if continued {
      PrependAssoc(result, p.line + p.newline, next);
      assert result + (p.line + p.newline) == result + p.line + p.newline;
    } else if indent <= p.line {
      PrependAssoc(result, p.line[|indent|..] + p.newline, next);
      assert result + (p.line[|indent|..] + p.newline) == result + p.line[|indent|..] + p.newline;
    }
  }

  // ---------- Whole tokens ----------

  function HashRun(s: Bytes): (n: nat)
    ensures n <= |s| && (forall i | 0 <= i < n :: s[i] == HASH) && (n < |s| ==> s[n] != HASH)
  {
    if s == [] || s[0] != HASH then 0 else 1 + HashRun(s[1..])
  }

  function Hashes(n: nat): (s: Bytes)
    ensures |s| == n && forall i | 0 <= i < n :: s[i] == HASH
  {
    seq(n, _ => HASH)
  }

  predicate HasSuffix(s: Bytes, suffix: Bytes) {
    |suffix| <= |s| && s[|s| - |suffix|..] == suffix
  }

  /** Decoding of what lies between the triple quotes: the text and the number of hashes. */
  function DecodeLines(inner: Bytes, hashCount: nat, quote: byte): Option<(Bytes, nat)> {
    var opening := FirstNewline(inner);
    if opening.None? || !InlineSpace(inner[..opening.value.at]) then None
    else
      var tail := ParseMultilineTail(inner[opening.value.at + opening.value.len..]);
      if tail.None? || !InlineSpace(tail.value.indent) then None
      else
        var dedented := Dedent(tail.value.content, tail.value.indent, false);
        if dedented.None? then None
        else if hashCount > 0 then Some((dedented.value, hashCount))
        else
          var text := if tail.value.closingEscaped then dedented.value + [BACKSLASH] else dedented.value;
          var r := UnescapeContent(text, quote, tail.value.closingEscaped);
          if r.None? then None else Some((r.value, 0))
  }

  /** Decoding of a triple-quoted token. */
  function UnquoteMultiLineToken(token: Bytes, delim: Bytes, quote: byte, allowRaw: bool): Option<(Bytes, nat)>
    requires delim != []
  {
    var hashCount := if allowRaw then HashRun(token) else 0;
    if hashCount > 0 && !(delim <= token[hashCount..] && HasSuffix(token, delim + Hashes(hashCount))) then None
    else
      var s := token[hashCount..|token| - hashCount];
      if |s| < |delim| * 2 || !(delim <= s) || !HasSuffix(s, delim) then None
      else DecodeLines(s[|delim|..|s| - |delim|], hashCount, quote)
  }

  /** isMultilineStringToken */
  predicate IsMultilineToken(s: Bytes) {
    TRIPLE <= s[HashRun(s)..]
  }

  // ---------- Dedenting undoes indenting ----------

  /** Each non-empty line prefixed by w. */
  function Indent(t: Bytes, w: Bytes): Bytes
    decreases |t|
  {
    if t == [] then []
    else
      var p := FirstLine(t);
      (if p.line == [] then [] else w + p.line) + p.newline + Indent(p.rest, w)
  }

  /** Text without blank lines that hold something and without continued lines. */
  predicate Indentable(t: Bytes)
    decreases |t|
  {
    t == [] || (
      var p := FirstLine(t);
      && (p.line == [] || !AllSpace(p.line)) && !HasLineContinuation(p.line)
      && Indentable(p.rest))
  }

  lemma {:induction false} AllSpaceConcat(w: Bytes, s: Bytes)
    requires AllSpace(w)
    ensures AllSpace(w + s) <==> AllSpace(s)
    decreases |w|
  {
    if w == [] {
      assert w + s == s;
    } else {
      var n := Decode(w).size;
      DecodeLocal(w, |w|, s);
      assert w[..|w|] == w;
      assert (w + s)[n..] == w[n..] + s;
      AllSpaceConcat(w[n..], s);
    }
  }

  lemma {:induction false} AllSpaceValid(w: Bytes)
    requires AllSpace(w)
    ensures Valid(w)
    decreases |w|
  {
    if w != [] {
      AllSpaceValid(w[Decode(w).size..]);
    }
  }

  /** Whitespace in front of a line does not change whether it is continued, decodable or not. */
  lemma {:induction false} ContinuationConcat(w: Bytes, line: Bytes)
    requires AllSpace(w)
    ensures HasLineContinuation(w + line) == HasLineContinuation(line)
    decreases |w| + |line|
  {
    hide Decode, DecodeLast, Encode, IsSpace;
    AllSpaceValid(w);
    if line == [] {
      assert w + line == w;
      if w != [] {
        var a, r := LastRune(w);
        DecodeLastEncode(a, r);
        SpaceSplit(a, r);
        ContinuationConcat(a, []);
        assert a + [] == a && w[..|w| - |Encode(r)|] == a;
      }
    } else {
      DecodeLastAfter(w, line);
      var d := DecodeLast(line);
      if IsSpace(d.r) {
        assert (w + line)[..|w + line| - d.size] == w + line[..|line| - d.size];
        ContinuationConcat(w, line[..|line| - d.size]);
      }
    }
  }

  lemma {:induction false} SpaceSplit(a: Bytes, r: rune)
    requires AllSpace(a + Encode(r)) && Valid(a) && IsScalar(r)
    ensures AllSpace(a) && IsSpace(r)
    decreases |a|
  {
    if a == [] {
      assert a + Encode(r) == Encode(r) + [];
      DecodeEncode(r, []);
    } else {
      var n := Decode(a).size;
      DecodeLocal(a, |a|, Encode(r));
      assert a[..|a|] == a;
      assert (a + Encode(r))[n..] == a[n..] + Encode(r);
      SpaceSplit(a[n..], r);
    }
  }

  /** The first newline of a text whose first line is known. */
  lemma {:induction false} FirstNewlineAfter(line: Bytes, s: Bytes)
    requires NewlineFree(line)
    ensures FirstNewline(line + s) == Shift(FirstNewline(s), |line|)
    decreases |line|
  {
    if line == [] {
      assert line + s == s;
    } else {
      assert (line + s)[1..] == line[1..] + s;
      FirstNewlineAfter(line[1..], s);
    }
  }

  /** Indenting keeps the newline structure: the first line is prefixed, the newline stays whole. */
  lemma IndentFirstLine(t: Bytes, w: Bytes)
    requires t != [] && NewlineFree(w)
    ensures var p := FirstLine(t);
            Indent(t, w) != [] &&
            FirstLine(Indent(t, w)) == Split(if p.line == [] then [] else w + p.line, p.newline, Indent(p.rest, w))
  {
    hide FirstLine;
    var p := FirstLine(t);
    var line := if p.line == [] then [] else w + p.line;
    if p.newline != [] {
      NewlineStays(t, w);
    }
    FirstLineIs(line, p.newline, Indent(p.rest, w));
  }

  lemma FirstLineIs(line: Bytes, newline: Bytes, rest: Bytes)
    requires NewlineFree(line)
    requires if newline == [] then rest == [] else FirstNewline(newline + rest) == Some(Newline(0, |newline|))
    ensures FirstLine(line + newline + rest) == Split(line, newline, rest)
  {
    hide FirstNewline;
    var s := line + newline + rest;
    assert s == line + (newline + rest);
    FirstNewlineAfter(line, newline + rest);
    if newline == [] {
      NoFirstNewline(newline + rest);
      assert s == line;
    }
  }

  lemma NoFirstNewline(s: Bytes)
    requires s == []
    ensures FirstNewline(s) == None
  {}

  lemma NewlineStays(t: Bytes, w: Bytes)
    requires NewlineFree(w) && FirstLine(t).newline != []
    ensures var p := FirstLine(t);
            FirstNewline(p.newline + Indent(p.rest, w)) == Some(Newline(0, |p.newline|))
  {
    hide FirstNewline, FirstLine;
    var p := FirstLine(t);
    FirstNewlineShape(t);
    if p.rest != [] {
      IndentStart(p.rest, w);
    }
    WholeNewline(p.newline, Indent(p.rest, w));
  }

  /** Indented text starts with a newline byte only where the text itself does. */
  lemma IndentStart(t: Bytes, w: Bytes)
    requires NewlineFree(w) && t != []
    ensures Indent(t, w) != [] && (Indent(t, w)[0] == LF ==> t[0] == LF)
  {
    hide FirstLine;
    var p := FirstLine(t);
    assert (p.line + p.newline)[0] == t[0];
    if p.line != [] {
      assert Indent(t, w)[0] == (w + p.line)[0];
    }
  }

  lemma WholeNewline(newline: Bytes, s: Bytes)
    requires newline in {[LF], [CR], [CR, LF]} && !(newline == [CR] && s != [] && s[0] == LF)
    ensures FirstNewline(newline + s) == Some(Newline(0, |newline|))
  {
    if newline == [CR] && s != [] {
      assert (newline + s)[1] == s[0];
    }
  }

  lemma {:induction false} DedentIndent(t: Bytes, w: Bytes)
    requires InlineSpace(w) && Indentable(t)
    ensures Dedent(Indent(t, w), w, false) == Some(t)
    decreases |t|
  {
    hide Dedent, FirstLine, HasLineContinuation, Valid, AllSpace;
    if t == [] {
      DedentNothing(w, false);
    } else {
      var p, s := FirstLine(t), Indent(t, w);
      var next := Dedent(Indent(p.rest, w), w, false);
      IndentFirstLine(t, w);
      DedentStep(s, w, false, []);
      PrependNothing(Dedent(s, w, false));
      DedentIndent(p.rest, w);
      if p.line == [] {
        NothingIsBlank();
        assert [] + p.newline + p.rest == t;
      } else {
        AllSpaceConcat(w, p.line);
        ContinuationConcat(w, p.line);
        assert (w + p.line)[|w|..] == p.line;
        assert [] + p.line + p.newline + p.rest == t;
      }
    }
  }

  lemma DedentNothing(w: Bytes, continued: bool)
    ensures Dedent([], w, continued) == Some([])
  {}

  lemma NothingIsBlank()
    ensures AllSpace([]) && !HasLineContinuation([])
  {}

  // ---------- When dedenting fails ----------

  function Lines(s: Bytes): seq<Bytes>
    decreases |s|
  {
    if s == [] then [] else [FirstLine(s).line] + Lines(FirstLine(s).rest)
  }

  /** A line may lack the indentation only when it is blank or continues the line before it. */
  predicate LineOk(lines: seq<Bytes>, i: nat, indent: Bytes, continued: bool)
    requires i < |lines|
  {
    || AllSpace(lines[i]) || indent <= lines[i]
    || (if i == 0 then continued else HasLineContinuation(lines[i - 1]))
  }

  lemma {:induction false} DedentSucceeds(content: Bytes, indent: Bytes, continued: bool)
    ensures Dedent(content, indent, continued).Some?
       <==> forall i | 0 <= i < |Lines(content)| :: LineOk(Lines(content), i, indent, continued)
    decreases |content|
  {
    hide FirstLine, AllSpace, HasLineContinuation;
    if content != [] {
      var p := FirstLine(content);
      var lines, next := Lines(content), HasLineContinuation(p.line);
      DedentSucceeds(p.rest, indent, next);
      assert lines == [p.line] + Lines(p.rest);
      assert forall i | 0 < i < |lines| :: LineOk(lines, i, indent, continued) == LineOk(Lines(p.rest), i - 1, indent, next);
      if Dedent(p.rest, indent, next).None? {
        var j :| 0 <= j < |Lines(p.rest)| && !LineOk(Lines(p.rest), j, indent, next);
        assert !LineOk(lines, j + 1, indent, continued);
      } else {
        assert LineOk(lines, 0, indent, continued) == (AllSpace(p.line) || indent <= p.line || continued);
      }
    }
  }

  // ---------- Raw tokens ----------

  function RawToken(content: Bytes, w: Bytes, h: nat): Bytes {
    Hashes(h) + TRIPLE + [LF] + content + [LF] + w + TRIPLE + Hashes(h)
  }

  function LastLine(s: Bytes): Bytes {
    match LastNewline(s)
    case None => s
    case Some(nl) => s[nl.at + nl.len..]
  }

  lemma {:induction false} NoBackslash(w: Bytes)
    requires AllSpace(w)
    ensures FirstBackslash(w) == |w|
    decreases |w|
  {
    if w != [] {
      var n := Decode(w).size;
      NoBackslash(w[n..]);
      if n > 1 {
        MultiByte(w);
      }
      forall i | n <= i < |w| ensures w[i] != BACKSLASH {
        assert w[i] == w[n..][i - n];
      }
    }
  }

  lemma {:induction false} LastNewlineAfter(a: Bytes, b: Bytes)
    requires !(a != [] && a[|a| - 1] == CR && b != [] && b[0] == LF)
    ensures LastNewline(a + b) == if LastNewline(b).Some? then Shift(LastNewline(b), |a|) else LastNewline(a)
    decreases |b|
  {
    if b == [] {
      assert a + b == a;
    } else {
      var i := |b| - 1;
      assert (a + b)[..|a + b| - 1] == a + b[..i];
      if !IsNewlineByte(b[i]) {
        LastNewlineAfter(a, b[..i]);
      }
    }
  }

  lemma {:induction false} NoLastNewline(s: Bytes)
    requires NewlineFree(s)
    ensures LastNewline(s) == None
  {
    if s != [] {
      NoLastNewline(s[..|s| - 1]);
    }
  }

  /** The last line is that of the text after the first newline. */
  lemma LastLineOfRest(s: Bytes)
    requires s != []
    ensures var p := FirstLine(s); LastLine(s) == if p.newline == [] then p.line else LastLine(p.rest)
  {
    hide LastNewline, FirstLine, LastLine;
    var p := FirstLine(s);
    if p.newline == [] {
      assert s == p.line + [] + [] == p.line;
      WholeLine(s);
    } else {
      FirstNewlineShape(s);
      LastLineAfter(p.line, p.newline, p.rest);
    }
  }

  lemma WholeLine(s: Bytes)
    requires NewlineFree(s)
    ensures LastLine(s) == s
  {
    hide LastNewline;
    NoLastNewline(s);
  }

  lemma LastLineAfter(line: Bytes, newline: Bytes, rest: Bytes)
    requires NewlineFree(line) && newline in {[LF], [CR], [CR, LF]}
    requires !(newline == [CR] && rest != [] && rest[0] == LF)
    ensures LastLine(line + newline + rest) == LastLine(rest)
  {
    hide LastNewline;
    var a := line + newline;
    LastNewlineAfter(a, rest);
    EndsInNewline(line, newline);
    var r := LastNewline(rest);
    if r.Some? {
      assert (a + rest)[|a| + r.value.at + r.value.len..] == rest[r.value.at + r.value.len..];
    } else {
      assert (a + rest)[|a|..] == rest;
    }
  }

  lemma {:induction false} NewlineLength(s: Bytes)
    requires FirstNewline(s).Some?
    ensures FirstNewline(s).value.len == if CRLFAt(s, FirstNewline(s).value.at) then 2 else 1
  {
    if !IsNewlineByte(s[0]) {
      NewlineLength(s[1..]);
    }
  }

  lemma FirstNewlineShape(s: Bytes)
    requires FirstLine(s).newline != []
    ensures var p := FirstLine(s);
            && p.newline in {[LF], [CR], [CR, LF]}
            && !(p.newline == [CR] && p.rest != [] && p.rest[0] == LF)
  {
    hide FirstNewline;
    var p := FirstLine(s);
    var i := |p.line|;
    NewlineLength(s);
    assert p.newline == if |p.newline| == 1 then [s[i]] else [s[i], s[i + 1]];
    if |p.newline| == 1 && p.rest != [] {
      assert s[i + 1] == p.rest[0];
    }
  }

  lemma EndsInNewline(line: Bytes, newline: Bytes)
    requires NewlineFree(line) && newline in {[LF], [CR], [CR, LF]}
    ensures LastNewline(line + newline) == Some(Newline(|line|, |newline|))
  {
    var a := line + newline;
    if newline == [LF] && line != [] {
      assert a[|a| - 2] == line[|line| - 1];
    }
  }

  /** A line that is only a backslash among whitespace is a continued line. */
  lemma ClosingEscapeContinues(line: Bytes)
    requires ClosingEscape(line).Some?
    ensures HasLineContinuation(line)
  {
    var i := FirstBackslash(line);
    var a := line[..i + 1];
    assert line == a + line[i + 1..];
    ContinuationBeforeSpace(a, line[i + 1..]);
    assert a[|a| - 1] == BACKSLASH;
  }

  lemma {:induction false} ContinuationBeforeSpace(a: Bytes, b: Bytes)
    requires AllSpace(b)
    ensures HasLineContinuation(a + b) == HasLineContinuation(a)
    decreases |b|
  {
    hide Decode, DecodeLast, Encode, IsSpace;
    if b == [] {
      assert a + b == a;
    } else {
      AllSpaceValid(b);
      var b', r := LastRune(b);
      SpaceSplit(b', r);
      DecodeLastEncode(a + b', r);
      assert a + b == (a + b') + Encode(r);
      assert (a + b)[..|a + b| - |Encode(r)|] == a + b';
      ContinuationBeforeSpace(a, b');
    }
  }

  predicate FinalCR(s: Bytes) { s != [] && s[|s| - 1] == CR }

  lemma ClosingLineStart(content: Bytes, w: Bytes)
    requires NewlineFree(w) && !FinalCR(content)
    ensures LastNewline(content + [LF] + w) == Some(Newline(|content|, 1))
  {
    NoLastNewline(w);
    LastNewlineAfter(content + [LF], w);
    assert (content + [LF])[..|content|] == content;
  }

  lemma NoClosingEscape(w: Bytes)
    requires AllSpace(w)
    ensures ClosingEscape(w) == None
  {
    NoBackslash(w);
  }

  lemma TailOfRaw(content: Bytes, w: Bytes)
    requires InlineSpace(w) && !FinalCR(content) && ClosingEscape(LastLine(content)).None?
    ensures ParseMultilineTail(content + [LF] + w) == Some(Tail(content, w, false))
  {
    var inner := content + [LF] + w;
    ClosingLineStart(content, w);
    NoClosingEscape(w);
    hide LastNewline, ClosingEscape, InlineSpace;
    assert inner[|content| + 1..] == w && inner[..|content|] == content;
  }

  /**
    Decoding a raw token strips the closing line's indentation w from the content and reports the
    hash count; it fails exactly when dedenting does.
   */
  lemma UnquoteRawToken(content: Bytes, w: Bytes, h: nat)
    requires h >= 1 && InlineSpace(w) && !FinalCR(content) && ClosingEscape(LastLine(content)).None?
    ensures var d := Dedent(content, w, false);
            UnquoteMultiLineToken(RawToken(content, w, h), TRIPLE, QUOTE, true)
            == if d.None? then None else Some((d.value, h))
  {
    hide DecodeLines, HashRun, RawToken, HasSuffix, Hashes, Dedent;
    RawTokenParts(content, w, h);
    DecodeRawLines(content, w, h);
  }

  lemma DecodeRawLines(content: Bytes, w: Bytes, h: nat)
    requires h >= 1 && InlineSpace(w) && !FinalCR(content) && ClosingEscape(LastLine(content)).None?
    ensures var d := Dedent(content, w, false);
            DecodeLines([LF] + content + [LF] + w, h, QUOTE) == if d.None? then None else Some((d.value, h))
  {
    hide Dedent, ParseMultilineTail, InlineSpace, FirstNewline;
    var inner := [LF] + content + [LF] + w;
    StartsWithNewline(inner);
    assert inner[1..] == content + [LF] + w && inner[..0] == [];
    EmptyIsInline();
    TailOfRaw(content, w);
  }

  lemma StartsWithNewline(s: Bytes)
    requires s != [] && s[0] == LF
    ensures FirstNewline(s) == Some(Newline(0, 1))
  {}

  /** What the prefix and suffix tests of the decoder see in a raw token. */
  lemma Hashed(h: nat, s: Bytes)
    ensures var token := Hashes(h) + s + Hashes(h);
            h <= |token| - h && token[h..] == s + Hashes(h) && token[h..|token| - h] == s
  {}

  lemma Tripled(inner: Bytes)
    ensures var s := TRIPLE + inner + TRIPLE;
            && |s| >= |TRIPLE| * 2 && TRIPLE <= s && HasSuffix(s, TRIPLE) && s[|TRIPLE|..|s| - |TRIPLE|] == inner
  {}

  lemma RawTokenIs(content: Bytes, w: Bytes, h: nat)
    ensures var inner := [LF] + content + [LF] + w;
            && RawToken(content, w, h) == Hashes(h) + (TRIPLE + inner + TRIPLE) + Hashes(h)
            && RawToken(content, w, h) == Hashes(h) + ((TRIPLE + inner + TRIPLE) + Hashes(h))
            && RawToken(content, w, h) == (Hashes(h) + TRIPLE + inner) + (TRIPLE + Hashes(h))
  {
    hide Hashes;
  }

  lemma SuffixOf(a: Bytes, b: Bytes)
    ensures HasSuffix(a + b, b)
  {}

  lemma RawTokenParts(content: Bytes, w: Bytes, h: nat)
    ensures var token, inner := RawToken(content, w, h), [LF] + content + [LF] + w;
            var s := TRIPLE + inner + TRIPLE;
            && HashRun(token) == h
            && TRIPLE <= token[h..] && HasSuffix(token, TRIPLE + Hashes(h))
            && h <= |token| - h && token[h..|token| - h] == s
            && |s| >= |TRIPLE| * 2 && TRIPLE <= s && HasSuffix(s, TRIPLE)
            && s[|TRIPLE|..|s| - |TRIPLE|] == inner
  {
    hide RawToken, Hashes, HasSuffix, HashRun;
    var inner := [LF] + content + [LF] + w;
    var s := TRIPLE + inner + TRIPLE;
    RawTokenIs(content, w, h);
    Hashed(h, s);
    Tripled(inner);
    HashRunOf(h, s + Hashes(h));
    SuffixOf(Hashes(h) + TRIPLE + inner, TRIPLE + Hashes(h));
    assert TRIPLE <= s <= s + Hashes(h);
  }

  lemma EmptyIsInline()
    ensures InlineSpace([])
  {}

  lemma {:induction false} HashRunOf(h: nat, s: Bytes)
    requires s != [] && s[0] != HASH
    ensures HashRun(Hashes(h) + s) == h
  {
    if h == 0 {
      assert Hashes(h) + s == s;
    } else {
      assert (Hashes(h) + s)[1..] == Hashes(h - 1) + s;
      HashRunOf(h - 1, s);
    }
  }

  /** Whether a raw token decodes is decided by its lines alone. */
  lemma RawTokenDecodes(content: Bytes, w: Bytes, h: nat)
    requires h >= 1 && InlineSpace(w) && !FinalCR(content) && ClosingEscape(LastLine(content)).None?
    ensures UnquoteMultiLineToken(RawToken(content, w, h), TRIPLE, QUOTE, true).Some?
       <==> forall i | 0 <= i < |Lines(content)| :: LineOk(Lines(content), i, w, false)
  {
    UnquoteRawToken(content, w, h);
    DedentSucceeds(content, w, false);
  }

  lemma {:induction false} IndentEnds(t: Bytes, w: Bytes)
    requires InlineSpace(w) && Indentable(t)
    ensures FinalCR(Indent(t, w)) == FinalCR(t) && (Indent(t, w) == [] <==> t == [])
    ensures ClosingEscape(LastLine(Indent(t, w))).None?
    decreases |t|
  {
    hide FirstLine, LastNewline, ClosingEscape, Valid, AllSpace, Decode, HasLineContinuation;
    if t == [] {
      NoLastNewline([]);
      NoEscapeInNothing();
    } else {
      var p, s := FirstLine(t), Indent(t, w);
      IndentFirstLine(t, w);
      LastLineOfRest(s);
      IndentEnds(p.rest, w);
      if p.newline == [] {
        ContinuationConcat(w, p.line);
        if ClosingEscape(w + p.line).Some? {
          ClosingEscapeContinues(w + p.line);
        }
        assert s == w + p.line && t == p.line;
      } else {
        assert t == p.line + p.newline + p.rest;
      }
    }
  }

  lemma NoEscapeInNothing()
    ensures ClosingEscape([]) == None
  {}

  /**
    Dedent undoes indent: a raw token that holds t with each non-empty line prefixed by w, closed on
    a line w, decodes to exactly t.
   */
  lemma IndentRoundTrip(t: Bytes, w: Bytes, h: nat)
    requires h >= 1 && InlineSpace(w) && Indentable(t) && !FinalCR(t)
    ensures UnquoteMultiLineToken(RawToken(Indent(t, w), w, h), TRIPLE, QUOTE, true) == Some((t, h))
  {
    IndentEnds(t, w);
    UnquoteRawToken(Indent(t, w), w, h);
    DedentIndent(t, w);
  }
}
