/** What comments and triple-quoted strings are, independently of how their readers go about it. */
module Lexemes {
  import opened Wrappers
  import opened Utf8
  import opened Tokens
  import opened Lookahead
  import opened Tokenize
  import opened Reading
  import HashTokens
  import Multiline
  import Quoted
  import Runes

  // ---------- Comments ----------

  const OPENING: Bytes := ['/' as int, '*' as int]
  const CLOSING: Bytes := ['*' as int, '/' as int]

  /** The inside of a comment: characters and further comments. */
  datatype Piece = Chars(s: Bytes) | Nested(ps: seq<Piece>)

  function Show(ps: seq<Piece>): Bytes {
    if ps == [] then []
    else (match ps[0] case Chars(s) => s case Nested(qs) => OPENING + Show(qs) + CLOSING) + Show(ps[1..])
  }

  predicate MarkAt(s: Bytes, i: nat) { i + 1 < |s| && (s[i..i + 2] == OPENING || s[i..i + 2] == CLOSING) }

  /** The characters can be decoded, and none begins a sign of a comment, whatever comes after them included. */
  predicate NoMarks(s: Bytes, after: Bytes) { Clean(s) && forall i | 0 <= i < |s| :: !MarkAt(s + after, i) }

  predicate WellNested(ps: seq<Piece>, after: Bytes) {
    ps == [] || (
      && WellNested(ps[1..], after)
      && match ps[0]
         case Chars(s) => NoMarks(s, Show(ps[1..]) + after)
         case Nested(qs) => WellNested(qs, CLOSING))
  }

  lemma {:induction false} CharsRead(s: Bytes, after: Bytes, depth: int)
    requires NoMarks(s, after)
    ensures Comment(s + after, depth) == Plus(|s|, Comment(after, depth))
    decreases |s|
  {
    hide Peek;
    if s == [] {
      assert s + after == after;
    } else {
      PeekSizes(s);
      PeekPrefix(s, after);
      var n := Peek(s).size;
      var t := (s + after)[n..];
      assert t == s[n..] + after;
      NoMarkAhead(s + after);
      forall i | 0 <= i < |s| - n ensures !MarkAt(t, i) {
        assert i + 1 < |t| ==> (s + after)[n + i..n + i + 2] == t[i..i + 2];
        assert !MarkAt(s + after, n + i);
      }
      CharsRead(s[n..], after, depth);
    }
  }

  lemma NoMarkAhead(s: Bytes)
    requires Peek(s).Rune? && !MarkAt(s, 0)
    ensures var p := Peek(s);
            && !(p.c == STAR && Next(s[p.size..], SLASH)) && !(p.c == SLASH && Next(s[p.size..], STAR))
  {
    hide Decode;
    if |s| > 1 {
      assert s[0..2] == [s[0], s[1]];
    }
  }

  lemma SignRead(s: Bytes, depth: int)
    ensures Comment(OPENING + s, depth) == Plus(2, Comment(s, depth + 1))
    ensures Comment(CLOSING + s, depth) == if depth == 1 then Got(2) else Plus(2, Comment(s, depth - 1))
  {
    hide Decode;
    var a, b := OPENING + s, CLOSING + s;
    assert a[1..] == [STAR] + s && a[1..][1..] == s;
    assert b[1..] == [SLASH] + s && b[1..][1..] == s;
  }

  lemma NoMarksFurther(s: Bytes, after: Bytes, more: Bytes)
    requires NoMarks(s, after) && after != []
    ensures NoMarks(s, after + more)
  {
    hide Clean;
    forall i | 0 <= i < |s| ensures !MarkAt(s + (after + more), i) {
      assert (s + (after + more))[i..i + 2] == (s + after)[i..i + 2];
      assert !MarkAt(s + after, i);
    }
  }

  /** Whatever comes after the closing sign. */
  lemma {:induction false} NestedFurther(ps: seq<Piece>, after: Bytes, more: Bytes)
    requires WellNested(ps, after) && after != []
    ensures WellNested(ps, after + more)
    decreases ps
  {
    hide NoMarks;
    if ps != [] {
      NestedFurther(ps[1..], after, more);
      if ps[0].Chars? {
        NoMarksFurther(ps[0].s, Show(ps[1..]) + after, more);
        assert Show(ps[1..]) + after + more == Show(ps[1..]) + (after + more);
      }
    }
  }

  lemma {:induction false} PiecesRead(ps: seq<Piece>, after: Bytes, depth: int)
    requires WellNested(ps, after) && CLOSING <= after && depth >= 1
    ensures Comment(Show(ps) + after, depth) == Plus(|Show(ps)|, Comment(after, depth))
    decreases ps
  {
    hide Comment, NoMarks;
    if ps == [] {
      assert Show(ps) + after == after;
    } else {
      var more := Show(ps[1..]) + after;
      PiecesRead(ps[1..], after, depth);
      match ps[0] {
        case Chars(s) =>
          CharsRead(s, more, depth);
          assert Show(ps) + after == s + more;
        case Nested(qs) =>
          var inside := Show(qs) + (CLOSING + more);
          NestedFurther(qs, CLOSING, more);
          PiecesRead(qs, CLOSING + more, depth + 1);
          SignRead(inside, depth);
          SignRead(more, depth + 1);
          assert Show(ps) + after == OPENING + inside;
      }
    }
  }

  /** A well-nested comment, whatever follows it, is one token up to its last closing sign. */
  lemma CommentScans(ps: seq<Piece>, rest: Bytes, v2: bool, start: bool)
    requires WellNested(ps, CLOSING)
    ensures var c := OPENING + Show(ps) + CLOSING; NextToken(c + rest, v2, start) == Lexeme(MultiLineComment, |c|)
  {
    hide Comment, WellNested, Show;
    var c := OPENING + Show(ps) + CLOSING;
    var inside := Show(ps) + (CLOSING + rest);
    assert c + rest == OPENING + inside;
    NestedFurther(ps, CLOSING, rest);
    PiecesRead(ps, CLOSING + rest, 1);
    SignRead(inside, 0);
    SignRead(rest, 1);
    SlashStarScans(inside, v2, start);
  }

  lemma SlashStarScans(s: Bytes, v2: bool, start: bool)
    ensures var r := Comment(OPENING + s, 0);
            NextToken(OPENING + s, v2, start) == if r.Got? then Lexeme(MultiLineComment, r.n) else NoLexeme(r.e)
  {
    hide Comment, Decode;
    assert (OPENING + s)[1..] == [STAR] + s;
  }

  /** One step of the reader: it fails, is done, or goes on behind what it has passed. */
  lemma CommentStep(s: Bytes, depth: int) returns (k: nat, d: int)
    ensures 1 <= k <= |s| || k == 0
    ensures var r := Comment(s, depth);
            if k == 0 then r.Failed? || (r == Got(2) && |s| >= 2 && s[0..2] == CLOSING)
            else r == Plus(k, Comment(s[k..], d))
  {
    k, d := 0, depth;
    PeekSizes(s);
    if Peek(s).Rune? {
      var p := Peek(s);
      var t := s[p.size..];
      CommentSigns(s);
      if p.c == STAR && Next(t, SLASH) {
        if depth != 1 {
          k, d := 2, depth - 1;
        }
      } else if p.c == SLASH && Next(t, STAR) {
        k, d := 2, depth + 1;
      } else {
        k := p.size;
      }
    }
    hide Peek;
  }

  /** Nothing else is a comment: what is read ends with a closing sign. */
  lemma {:induction false} CommentEnds(s: Bytes, depth: int)
    ensures var r := Comment(s, depth); r.Got? ==> s[r.n - 2..r.n] == CLOSING
    decreases |s|, 1
  {
    hide Comment;
    var k, d := CommentStep(s, depth);
    if k > 0 {
      EndsLater(s, k, d);
    }
  }

  lemma EndsLater(s: Bytes, k: nat, depth: int)
    requires 1 <= k <= |s|
    ensures var r := Comment(s[k..], depth); r.Got? ==> s[k + r.n - 2..k + r.n] == CLOSING
    decreases |s| - k, 2
  {
    hide Comment;
    CommentEnds(s[k..], depth);
    var r := Comment(s[k..], depth);
    if r.Got? {
      assert s[k..][r.n - 2..r.n] == s[k + r.n - 2..k + r.n];
    }
  }

  lemma CommentSigns(s: Bytes)
    requires Peek(s).Rune?
    ensures Peek(s).c == STAR && Next(s[Peek(s).size..], SLASH) ==> |s| > 1 && s[0..2] == CLOSING && s[Peek(s).size..][1..] == s[2..]
    ensures Peek(s).c == SLASH && Next(s[Peek(s).size..], STAR) ==> |s| > 1 && s[Peek(s).size..][1..] == s[2..]
  {
    hide Decode;
  }

  /** A line comment ends before the newline, or with the input. */
  lemma {:induction false} LineRun(c: Bytes, rest: Bytes, i: nat)
    requires Clean(c) && HashTokens.OneLine(c) && (Peek(rest).Rune? ==> Runes.IsNewline(Peek(rest).c))
    ensures RunLength(c + rest, i, NotNewline()) == |c|
    decreases |c|
  {
    hide Decode, Peek;
    if c == [] {
      assert c + rest == rest;
    } else {
      PeekSizes(c);
      PeekPrefix(c, rest);
      PeekIsDecode(c);
      var n := Peek(c).size;
      assert (c + rest)[n..] == c[n..] + rest;
      LineRun(c[n..], rest, i + 1);
    }
  }

  lemma LineCommentScans(c: Bytes, rest: Bytes, v2: bool, start: bool)
    requires Clean(c) && HashTokens.OneLine(c)
    requires rest == [] || (Peek(rest).Rune? && Runes.IsNewline(Peek(rest).c))
    ensures NextToken([SLASH, SLASH] + c + rest, v2, start) == Lexeme(SingleLineComment, 2 + |c|)
  {
    hide LineComment, Clean, HashTokens.OneLine, NextToken, Decode;
    var d := [SLASH, SLASH] + c;
    SlashesClean(c);
    LineCommentRead(d, rest);
    assert d + rest == [SLASH, SLASH] + (c + rest);
    SlashSlashScans(c + rest, v2, start);
  }

  lemma LineCommentRead(c: Bytes, rest: Bytes)
    requires Clean(c) && HashTokens.OneLine(c)
    requires rest == [] || (Peek(rest).Rune? && Runes.IsNewline(Peek(rest).c))
    ensures LineComment(c + rest) == Got(|c|)
  {
    LineRun(c, rest, 0);
    assert (c + rest)[|c|..] == rest;
    hide Decode, Clean, HashTokens.OneLine, RunLength;
  }

  lemma SlashSlashScans(s: Bytes, v2: bool, start: bool)
    ensures var r := LineComment([SLASH, SLASH] + s);
            NextToken([SLASH, SLASH] + s, v2, start) == if r.Got? then Lexeme(SingleLineComment, r.n) else NoLexeme(r.e)
  {
    hide LineComment, Decode;
    assert ([SLASH, SLASH] + s)[1..] == [SLASH] + s;
  }

  lemma SlashesClean(c: Bytes)
    requires Clean(c) && HashTokens.OneLine(c)
    ensures Clean([SLASH, SLASH] + c) && HashTokens.OneLine([SLASH, SLASH] + c)
  {
    var d := [SLASH, SLASH] + c;
    assert d[1..] == [SLASH] + c && ([SLASH] + c)[1..] == c;
  }

  // ---------- Where a triple-quoted string ends ----------

  /** How often the byte c stands directly before position i. */
  function Before(s: Bytes, i: nat, c: byte): (n: nat)
    requires i <= |s|
    ensures n <= i && (forall j | i - n <= j < i :: s[j] == c) && (n < i ==> s[i - n - 1] != c)
  {
    if i == 0 || s[i - 1] != c then 0 else 1 + Before(s, i - 1, c)
  }

  /** Three times the quote q. */
  predicate TripleAt(s: Bytes, i: nat, q: byte) { i + 3 <= |s| && s[i..i + 3] == [q, q, q] }

  /** The quotes a string may stand between. */
  predicate IsQuote(q: byte) { q == Quoted.QUOTE || q == '`' as int }

  /** Three quotes that are not escaped: the number of backslashes before them is even. */
  predicate Unescaped(s: Bytes, i: nat, q: byte) { TripleAt(s, i, q) && Before(s, i, Quoted.BACKSLASH) % 2 == 0 }

  /** The first n bytes end with the first unescaped three quotes, and what is before them can be decoded. */
  ghost predicate EndsTriple(s: Bytes, n: nat, q: byte) {
    n >= 3 && CleanTo(s, n - 3) && Unescaped(s, n - 3, q) && forall i: nat | i < n - 3 :: !Unescaped(s, i, q)
  }

  lemma {:induction false} BeforeLater(s: Bytes, k: nat, i: nat, c: byte)
    requires k <= i <= |s|
    ensures var n := Before(s[k..], i - k, c);
            Before(s, i, c) == if n < i - k then n else n + Before(s, k, c)
    decreases i
  {
    if i > k {
      assert s[k..][i - k - 1] == s[i - 1];
      BeforeLater(s, k, i - 1, c);
    }
  }

  lemma TripleLater(s: Bytes, k: nat, i: nat, q: byte)
    requires k <= i && k <= |s|
    ensures TripleAt(s, i, q) <==> TripleAt(s[k..], i - k, q)
  {
    if i + 3 <= |s| {
      assert s[i..i + 3] == s[k..][i - k..i - k + 3];
    }
  }

  /** How far one step of the reader goes: one rune, or a backslash and the rune after it. */
  function Element(s: Bytes): nat
    requires Peek(s).Rune?
  {
    var p := Peek(s);
    if p.c == BACKSLASH && Peek(s[p.size..]).Rune? then p.size + Peek(s[p.size..]).size else p.size
  }

  lemma ElementStep(s: Bytes, q: byte)
    requires IsQuote(q)
    ensures Peek(s).Rune? ==> 1 <= Element(s) <= |s|
    ensures MultiLineContent(s, q, 0)
         == if Peek(s).Bad? then Failed(Inside(Peek(s).e))
            else if Peek(s).c == BACKSLASH && Peek(s[1..]).Bad? then Failed(UnexpectedEOF)
            else if TripleAt(s, 0, q) then Got(3)
            else Plus(Element(s), MultiLineContent(s[Element(s)..], q, 0))
  {
    hide Decode;
    if Peek(s).Rune? {
      var p := Peek(s);
      var t := s[p.size..];
      ThriceHere(s, q);
      if p.c == BACKSLASH && Peek(t).Rune? {
        assert t[Peek(t).size..] == s[Element(s)..];
      }
    }
  }

  lemma ThriceHere(s: Bytes, q: byte)
    requires IsQuote(q)
    requires Peek(s).Rune?
    ensures var p := Peek(s);
            var t := s[p.size..];
            TripleAt(s, 0, q) <==> p.c == q && Next(t, q) && Next(t[1..], q)
    ensures TripleAt(s, 0, q) ==> s[0] == q && HashRun(s[Peek(s).size..][2..], 0) == 0
  {
    hide Decode;
    if |s| >= 3 {
      assert s[0..3] == [s[0], s[1], s[2]];
      assert s[1..][0] == s[1] && s[1..][1..] == s[2..];
    }
    if TripleAt(s, 0, q) {
      assert s[0..3][0] == q && s[0..3][1] == q && s[0..3][2] == q;
    }
  }

  /** Past one element nothing is escaped that was not, nor the other way round; within it nothing ends. */
  lemma ElementEscapes(s: Bytes, i: nat, q: byte)
    requires IsQuote(q)
    requires Peek(s).Rune? && !(Peek(s).c == BACKSLASH && Peek(s[1..]).Bad?) && !TripleAt(s, 0, q) && Element(s) <= |s|
    ensures i < Element(s) ==> !Unescaped(s, i, q)
    ensures i >= Element(s) ==> (Unescaped(s, i, q) <==> Unescaped(s[Element(s)..], i - Element(s), q))
  {
    hide Peek, Element, Before;
    var k := Element(s);
    ElementBytes(s, q);
    TripleBytes(s, i, q);
    if i >= k {
      TripleLater(s, k, i, q);
      if TripleAt(s, i, q) {
        BeforeLater(s, k, i, Quoted.BACKSLASH);
        Parity(Before(s, i, Quoted.BACKSLASH), Before(s[k..], i - k, Quoted.BACKSLASH), Before(s, k, Quoted.BACKSLASH));
      }
    }
    hide TripleAt;
  }

  lemma Parity(a: nat, b: nat, c: nat)
    requires c % 2 == 0 && (a == b || a == b + c)
    ensures a % 2 == b % 2
  {}

  lemma TripleBytes(s: Bytes, i: nat, q: byte)
    ensures TripleAt(s, i, q) ==> i < |s| && s[i] == q
  {
    if TripleAt(s, i, q) {
      assert s[i] == s[i..i + 3][0];
    }
  }

  lemma ElementBytes(s: Bytes, q: byte)
    requires IsQuote(q)
    requires Peek(s).Rune? && !(Peek(s).c == BACKSLASH && Peek(s[1..]).Bad?) && Element(s) <= |s|
    ensures Before(s, Element(s), Quoted.BACKSLASH) % 2 == 0
    ensures forall i | 0 < i < Element(s) && s[i] == q :: Before(s, i, Quoted.BACKSLASH) % 2 == 1
    ensures s[0] == q ==> Element(s) == 1
  {
    var p := Peek(s);
    assert Before(s, 0, Quoted.BACKSLASH) == 0;
    if p.c == BACKSLASH {
      var t := s[1..];
      assert Before(s, 1, Quoted.BACKSLASH) == 1;
      if Peek(t).size > 1 {
        BytesOfRune(t);
        assert forall i | 1 <= i < Element(s) :: s[i] == t[i - 1] >= 0x80;
      } else {
        assert s[1] == t[0];
      }
    } else if p.size > 1 {
      BytesOfRune(s);
    }
    hide Decode;
  }

  lemma EndsHere(s: Bytes, n: nat, q: byte)
    requires TripleAt(s, 0, q)
    ensures EndsTriple(s, n, q) <==> n == 3
  {
    assert Before(s, 0, Quoted.BACKSLASH) == 0 && Unescaped(s, 0, q);
    hide TripleAt;
    assert CleanTo(s, 0);
    if n > 3 {
      assert Unescaped(s, 0, q);
    }
  }

  lemma EndsFurther(s: Bytes, n: nat, q: byte)
    requires IsQuote(q)
    requires Peek(s).Rune? && !(Peek(s).c == BACKSLASH && Peek(s[1..]).Bad?) && !TripleAt(s, 0, q)
    requires Element(s) <= |s|
    ensures EndsTriple(s, n, q) <==> n >= Element(s) && EndsTriple(s[Element(s)..], n - Element(s), q)
  {
    hide Peek, Element, Unescaped, TripleAt, CleanTo;
    var k := Element(s);
    forall i: nat
      ensures i < k ==> !Unescaped(s, i, q)
      ensures i >= k ==> (Unescaped(s, i, q) <==> Unescaped(s[k..], i - k, q))
    {
      ElementEscapes(s, i, q);
    }
    if n >= 3 + k {
      ElementClean(s, n - 3);
    }
    if EndsTriple(s, n, q) {
      assert Unescaped(s, n - 3, q);
      forall i: nat | i < n - k - 3 ensures !Unescaped(s[k..], i, q) {
        assert !Unescaped(s, i + k, q);
      }
    }
    if n >= k && EndsTriple(s[k..], n - k, q) {
      forall i: nat | i < n - 3 ensures !Unescaped(s, i, q) {
        if i >= k {
          assert !Unescaped(s[k..], i - k, q);
        }
      }
      assert Unescaped(s[k..], n - k - 3, q);
    }
  }

  lemma ElementClean(s: Bytes, n: nat)
    requires Peek(s).Rune? && !(Peek(s).c == BACKSLASH && Peek(s[1..]).Bad?) && Element(s) <= |s| && n >= Element(s)
    ensures CleanTo(s, n) <==> CleanTo(s[Element(s)..], n - Element(s))
  {
    hide Decode;
    var p := Peek(s);
    if p.c == BACKSLASH {
      var t := s[1..];
      assert t[Peek(t).size..] == s[Element(s)..];
      assert CleanTo(s, n) <==> CleanTo(t, n - 1);
    }
  }

  lemma NothingClean(s: Bytes, n: nat, q: byte)
    requires IsQuote(q)
    requires Peek(s).Bad? || (Peek(s).c == BACKSLASH && Peek(s[1..]).Bad?)
    ensures !EndsTriple(s, n, q)
  {
    NotCleanTo(s, n - 3, q);
    TripleBytes(s, if n >= 3 then n - 3 else 0, q);
    hide Peek, TripleAt, CleanTo, Before;
  }

  lemma NotCleanTo(s: Bytes, m: int, q: byte)
    requires IsQuote(q)
    requires Peek(s).Bad? || (Peek(s).c == BACKSLASH && Peek(s[1..]).Bad?)
    ensures m >= 2 || (m == 1 && Peek(s).Bad?) ==> !CleanTo(s, m)
    ensures 0 <= m < 2 && m < |s| && s[m] == q ==> m == 1 && Peek(s).Bad?
  {
    hide Decode;
    if |s| > 1 {
      assert s[1..][0] == s[1];
    }
  }

  /** A triple-quoted string ends with the first three quotes that are not escaped. */
  lemma {:induction false} TripleEnds(s: Bytes, n: nat, q: byte)
    requires IsQuote(q)
    ensures MultiLineContent(s, q, 0) == Got(n) <==> EndsTriple(s, n, q)
    decreases |s|
  {
    hide Peek, MultiLineContent, EndsTriple, TripleAt, Element;
    ElementStep(s, q);
    if Peek(s).Bad? || (Peek(s).c == BACKSLASH && Peek(s[1..]).Bad?) {
      NothingClean(s, n, q);
    } else if TripleAt(s, 0, q) {
      EndsHere(s, n, q);
    } else {
      EndsFurther(s, n, q);
      if n >= Element(s) {
        TripleEnds(s[Element(s)..], n - Element(s), q);
      }
    }
  }

  // ---------- With number signs ----------

  predicate ClosesAt(s: Bytes, i: nat, h: nat) {
    i + 3 + h <= |s| && s[i..i + 3] == Multiline.TRIPLE && s[i + 3..i + 3 + h] == Multiline.Hashes(h)
  }

  /** A closing sequence the reader sees: the quotes directly before it are read three at a time. */
  predicate Aligned(s: Bytes, i: nat, h: nat) { ClosesAt(s, i, h) && Before(s, i, Quoted.QUOTE) % 3 == 0 }

  /** The first n bytes end with the first such sequence, and what is before it can be decoded. */
  ghost predicate EndsRaw(s: Bytes, n: nat, h: nat) {
    n >= 3 + h && CleanTo(s, n - 3 - h) && Aligned(s, n - 3 - h, h) && forall i: nat | i < n - 3 - h :: !Aligned(s, i, h)
  }

  /** How far one step of the reader goes: one rune, or three quotes and the number signs after them. */
  function RawElement(s: Bytes, h: nat): (k: nat)
    requires Peek(s).Rune?
    ensures 1 <= k <= |s|
  {
    PeekSizes(s);
    if TripleAt(s, 0, Quoted.QUOTE) then 3 + HashRun(s[3..], h) else Peek(s).size
  }

  lemma RawElementStep(s: Bytes, h: nat)
    requires h >= 1
    ensures MultiLineContent(s, Tokenize.QUOTE, h)
         == if Peek(s).Bad? then Failed(Inside(Peek(s).e))
            else if ClosesAt(s, 0, h) then Got(3 + h)
            else Plus(RawElement(s, h), MultiLineContent(s[RawElement(s, h)..], Tokenize.QUOTE, h))
  {
    if Peek(s).Rune? {
      ThriceHere(s, Quoted.QUOTE);
      hide Decode, HashRun, TripleAt;
      var t := s[Peek(s).size..];
      ClosesHere(s, h);
      if TripleAt(s, 0, Quoted.QUOTE) {
        TripleIsByte(s);
        assert t[2..] == s[3..];
        assert t[2 + HashRun(s[3..], h)..] == s[3 + HashRun(s[3..], h)..];
      }
    }
  }

  lemma TripleIsByte(s: Bytes)
    requires TripleAt(s, 0, Quoted.QUOTE)
    ensures Peek(s) == Rune(Tokenize.QUOTE, 1) && s[0] == s[1] == s[2] == Quoted.QUOTE
  {
    assert s[0] == s[0..3][0] && s[1] == s[0..3][1] && s[2] == s[0..3][2];
    hide Decode;
  }

  lemma ClosesHere(s: Bytes, h: nat)
    ensures ClosesAt(s, 0, h) <==> TripleAt(s, 0, Quoted.QUOTE) && HashRun(s[3..], h) == h
  {
    if TripleAt(s, 0, Quoted.QUOTE) {
      HashRunAll(s[3..], h);
      if 3 + h <= |s| {
        assert s[3..][..h] == s[3..3 + h];
      }
    }
  }

  lemma ClosesLater(s: Bytes, k: nat, i: nat, h: nat)
    requires k <= i && k <= |s|
    ensures ClosesAt(s, i, h) <==> ClosesAt(s[k..], i - k, h)
  {
    if i + 3 + h <= |s| {
      assert s[i..i + 3] == s[k..][i - k..i - k + 3];
      assert s[i + 3..i + 3 + h] == s[k..][i - k + 3..i - k + 3 + h];
    }
  }

  lemma ClosesBytes(s: Bytes, i: nat, h: nat)
    requires ClosesAt(s, i, h)
    ensures s[i] == s[i + 1] == s[i + 2] == Quoted.QUOTE && (h >= 1 ==> s[i + 3] == '#' as int)
  {
    assert s[i] == s[i..i + 3][0] && s[i + 1] == s[i..i + 3][1] && s[i + 2] == s[i..i + 3][2];
    if h >= 1 {
      assert s[i + 3] == s[i + 3..i + 3 + h][0];
    }
  }

  /** Three quotes and too few number signs. */
  lemma AlignedPastTriple(s: Bytes, i: nat, h: nat)
    requires h >= 1 && TripleAt(s, 0, Quoted.QUOTE) && !ClosesAt(s, 0, h)
    ensures var k := RawElement(s, h);
            && (i < k ==> !Aligned(s, i, h))
            && (i >= k ==> (Aligned(s, i, h) <==> Aligned(s[k..], i - k, h)))
  {
    TripleIsByte(s);
    hide Peek, HashRun, TripleAt, ClosesAt, Before;
    var k := RawElement(s, h);
    SignsAfterTriple(s, h);
    if i >= k {
      ClosesLater(s, k, i, h);
      if ClosesAt(s, i, h) {
        BeforeLater(s, k, i, Quoted.QUOTE);
        AfterTriple(s, k);
        ByThrees(Before(s, i, Quoted.QUOTE), Before(s[k..], i - k, Quoted.QUOTE), Before(s, k, Quoted.QUOTE));
      }
    } else if ClosesAt(s, i, h) {
      ClosesBytes(s, i, h);
      NearStart(s);
    }
  }

  lemma SignsAfterTriple(s: Bytes, h: nat)
    requires TripleAt(s, 0, Quoted.QUOTE) && Peek(s).Rune?
    ensures var k := RawElement(s, h); 3 <= k <= |s| && forall j | 3 <= j < k :: s[j] == '#' as int
  {
    hide Decode, HashRun;
    var k := RawElement(s, h);
    HashRunAll(s[3..], h);
    assert forall j | 3 <= j < k :: s[j] == s[3..][j - 3];
  }

  lemma NearStart(s: Bytes)
    requires TripleAt(s, 0, Quoted.QUOTE)
    ensures Before(s, 1, Quoted.QUOTE) == 1 && Before(s, 2, Quoted.QUOTE) == 2
  {
    TripleIsByte(s);
    assert Before(s, 0, Quoted.QUOTE) == 0 && Before(s, 1, Quoted.QUOTE) == 1;
  }

  lemma AfterTriple(s: Bytes, k: nat)
    requires TripleAt(s, 0, Quoted.QUOTE) && 3 <= k <= |s| && forall j | 3 <= j < k :: s[j] == '#' as int
    ensures Before(s, k, Quoted.QUOTE) % 3 == 0
  {
    TripleIsByte(s);
    assert Before(s, 0, Quoted.QUOTE) == 0 && Before(s, 1, Quoted.QUOTE) == 1 && Before(s, 2, Quoted.QUOTE) == 2;
    assert Before(s, 3, Quoted.QUOTE) == 3;
  }

  lemma ByThrees(a: nat, b: nat, c: nat)
    requires c % 3 == 0 && (a == b || a == b + c)
    ensures a % 3 == b % 3
  {}

  /** One rune, where three quotes do not stand. */
  lemma AlignedPastRune(s: Bytes, i: nat, h: nat)
    requires h >= 1 && Peek(s).Rune? && !TripleAt(s, 0, Quoted.QUOTE)
    ensures var k := RawElement(s, h);
            && (i < k ==> !Aligned(s, i, h))
            && (i >= k ==> (Aligned(s, i, h) <==> Aligned(s[k..], i - k, h)))
  {
    hide Decode;
    var k := RawElement(s, h);
    RuneBytes(s);
    ClosesHere(s, h);
    if ClosesAt(s, i, h) {
      ClosesBytes(s, i, h);
    }
    if i >= k {
      ClosesLater(s, k, i, h);
      if ClosesAt(s, i, h) {
        BeforeLater(s, k, i, Quoted.QUOTE);
        if Before(s[k..], i - k, Quoted.QUOTE) == i - k && Before(s, k, Quoted.QUOTE) > 0 {
          QuotesFromStart(s, k, i);
        }
      }
    }
  }

  lemma RuneBytes(s: Bytes)
    requires Peek(s).Rune?
    ensures 1 <= Peek(s).size <= |s|
    ensures forall j | 0 < j < Peek(s).size :: s[j] >= 0x80
    ensures Before(s, Peek(s).size, Quoted.QUOTE) > 0 ==> Peek(s).size == 1 && s[0] == Quoted.QUOTE
  {
    PeekSizes(s);
    if Peek(s).size > 1 {
      BytesOfRune(s);
    }
    hide Decode;
  }

  lemma QuotesFromStart(s: Bytes, k: nat, i: nat)
    requires k == 1 && i >= k && i + 3 <= |s| && s[0] == Quoted.QUOTE && s[i] == s[i + 1] == Quoted.QUOTE
    requires Before(s[k..], i - k, Quoted.QUOTE) == i - k
    ensures TripleAt(s, 0, Quoted.QUOTE)
  {
    forall j | 1 <= j < i ensures s[j] == Quoted.QUOTE {
      assert s[j] == s[k..][j - k];
    }
    assert s[0..3] == Multiline.TRIPLE;
  }

  lemma RawEndsFurther(s: Bytes, n: nat, h: nat)
    requires h >= 1 && Peek(s).Rune? && !ClosesAt(s, 0, h)
    ensures var k := RawElement(s, h); EndsRaw(s, n, h) <==> n >= k && EndsRaw(s[k..], n - k, h)
  {
    hide Peek, RawElement, Aligned, ClosesAt, CleanTo, TripleAt;
    var k := RawElement(s, h);
    forall i: nat
      ensures i < k ==> !Aligned(s, i, h)
      ensures i >= k ==> (Aligned(s, i, h) <==> Aligned(s[k..], i - k, h))
    {
      if TripleAt(s, 0, Quoted.QUOTE) {
        AlignedPastTriple(s, i, h);
      } else {
        AlignedPastRune(s, i, h);
      }
    }
    if n >= 3 + h + k {
      RawElementClean(s, n - 3 - h, h);
    }
    if EndsRaw(s, n, h) {
      assert Aligned(s, n - 3 - h, h);
      forall i: nat | i < n - k - 3 - h ensures !Aligned(s[k..], i, h) {
        assert !Aligned(s, i + k, h);
      }
    }
    if n >= k && EndsRaw(s[k..], n - k, h) {
      forall i: nat | i < n - 3 - h ensures !Aligned(s, i, h) {
        if i >= k {
          assert !Aligned(s[k..], i - k, h);
        }
      }
      assert Aligned(s[k..], n - k - 3 - h, h);
    }
  }

  lemma RawElementClean(s: Bytes, n: nat, h: nat)
    requires Peek(s).Rune? && n >= RawElement(s, h)
    ensures var k := RawElement(s, h); CleanTo(s, n) <==> CleanTo(s[k..], n - k)
  {
    hide Peek, HashRun, CleanTo, TripleAt;
    if TripleAt(s, 0, Quoted.QUOTE) {
      var k := HashRun(s[3..], h);
      HashRunAll(s[3..], h);
      TripleClean(s, n);
      CleanPastHashes(s[3..], k, n - 3);
      assert s[3..][k..] == s[3 + k..];
    } else {
      RuneClean(s, n);
    }
  }

  lemma RuneClean(s: Bytes, n: nat)
    requires Peek(s).Rune? && n >= Peek(s).size && 1 <= Peek(s).size <= |s|
    ensures CleanTo(s, n) <==> CleanTo(s[Peek(s).size..], n - Peek(s).size)
  {
    hide Peek;
  }

  lemma TripleClean(s: Bytes, n: nat)
    requires TripleAt(s, 0, Quoted.QUOTE) && n >= 3
    ensures CleanTo(s, n) <==> CleanTo(s[3..], n - 3)
  {
    hide CleanTo;
    TripleIsByte(s);
    var t, u := s[1..], s[2..];
    assert t[0] == s[1] && u[0] == s[2] && t[1..] == u && u[1..] == s[3..];
    CleanByte(s, n);
    CleanByte(t, n - 1);
    CleanByte(u, n - 2);
  }

  lemma RawEndsHere(s: Bytes, n: nat, h: nat)
    requires ClosesAt(s, 0, h)
    ensures EndsRaw(s, n, h) <==> n == 3 + h
  {
    hide ClosesAt;
    assert Before(s, 0, Quoted.QUOTE) == 0 && Aligned(s, 0, h);
    assert CleanTo(s, 0);
  }

  /**
    A raw triple-quoted string ends with its first closing sequence that is not preceded by one or two
    quotes left over from reading them three at a time.
   */
  lemma {:induction false} RawTripleEnds(s: Bytes, n: nat, h: nat)
    requires h >= 1
    ensures MultiLineContent(s, Tokenize.QUOTE, h) == Got(n) <==> EndsRaw(s, n, h)
    decreases |s|
  {
    hide Peek, MultiLineContent, EndsRaw, ClosesAt, RawElement;
    RawElementStep(s, h);
    if Peek(s).Bad? {
      NothingAligned(s, n, h);
    } else if ClosesAt(s, 0, h) {
      RawEndsHere(s, n, h);
    } else {
      RawEndsFurther(s, n, h);
      var k := RawElement(s, h);
      if n >= k {
        RawTripleEnds(s[k..], n - k, h);
      }
    }
  }

  lemma NothingAligned(s: Bytes, n: nat, h: nat)
    requires Peek(s).Bad?
    ensures !EndsRaw(s, n, h)
  {
    hide Decode;
    if ClosesAt(s, 0, h) {
      ClosesBytes(s, 0, h);
    }
  }

  /** So a closing sequence after a single quote is passed over. */
  lemma ClosingMissed(h: nat)
    requires h >= 1
    ensures var s := [Quoted.QUOTE] + Multiline.TRIPLE + Multiline.Hashes(h);
            ClosesAt(s, 1, h) && MultiLineContent(s, Tokenize.QUOTE, h).Failed?
  {
    var s := [Quoted.QUOTE] + Multiline.TRIPLE + Multiline.Hashes(h);
    assert s[1..4] == Multiline.TRIPLE && s[4..4 + h] == Multiline.Hashes(h);
    assert Before(s, 0, Quoted.QUOTE) == 0 && Before(s, 1, Quoted.QUOTE) == 1;
    assert s[3] == Quoted.QUOTE;
    if MultiLineContent(s, Tokenize.QUOTE, h).Got? {
      var n := MultiLineContent(s, Tokenize.QUOTE, h).n;
      RawTripleEnds(s, n, h);
      ClosesBytes(s, n - 3 - h, h);
    }
  }
}
