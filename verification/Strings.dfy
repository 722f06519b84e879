/** Quoted strings as their reader sees them: characters, escapes, and in version 2 folded lines. */
module Strings {
  import opened Utf8
  import opened Lookahead
  import opened Runes
  import opened Tokenize
  import opened Reading
  import Quoted

  /** One rune that stands for itself, a backslash and a rune, or a backslash and blanks. */
  datatype Part = Stand(s: Bytes) | Pair(s: Bytes) | Fold(s: Bytes)

  function Shown(p: Part): Bytes { if p.Stand? then p.s else [Quoted.BACKSLASH] + p.s }

  function ShowAll(ps: seq<Part>): Bytes { if ps == [] then [] else Shown(ps[0]) + ShowAll(ps[1..]) }

  predicate One(s: Bytes) { Peek(s).Rune? && Peek(s).size == |s| }

  predicate IsBlank(c: rune) { c == 0x20 || c == 0x09 || c == 0x0A || c == 0x0D }

  /** Blank runes, newlines among them. */
  predicate Blanks(s: Bytes)
    decreases |s|
  {
    s == [] || (Peek(s).Rune? && (IsWhiteSpace(Peek(s).c) || IsNewline(Peek(s).c)) && Blanks(s[Peek(s).size..]))
  }

  predicate BlankAhead(s: Bytes) { Peek(s).Rune? && (IsWhiteSpace(Peek(s).c) || IsNewline(Peek(s).c)) }

  /** What may stand between quotes q, before a given rest. */
  predicate PartOk(p: Part, after: Bytes, q: rune, v2: bool) {
    match p
    case Stand(s) =>
      One(s) && var c := Peek(s).c; c != BACKSLASH && c != q && (v2 ==> c != 0x0A && c != 0x0D)
    case Pair(s) =>
      && One(s) && !IsBlank(Peek(s).c)
      && (v2 ==> Peek(s).c != SLASH && !(Peek(s).c == BACKSLASH && Next(after, SLASH)))
    case Fold(s) =>
      v2 && s != [] && IsBlank(s[0]) && Blanks(s) && !BlankAhead(after)
  }

  predicate PartsOk(ps: seq<Part>, after: Bytes, q: rune, v2: bool) {
    ps == [] || (PartOk(ps[0], ShowAll(ps[1..]) + after, q, v2) && PartsOk(ps[1..], after, q, v2))
  }

  const FOLDING := QuoteState(false, true, false)

  lemma Step(s: Bytes, q: rune, v2: bool, st: QuoteState)
    requires Peek(s).Rune?
    ensures var p := Peek(s);
            var next := QuoteStep(st, p.c, q, v2, Next(s[p.size..], SLASH));
            QuoteLength(s, q, v2, st) == if next.None? then 0 else p.size + QuoteLength(s[p.size..], q, v2, next.value)
  {
    hide Peek;
  }

  lemma StandRead(s: Bytes, t: Bytes, q: rune, v2: bool)
    requires PartOk(Stand(s), t, q, v2)
    ensures QuoteLength(s + t, q, v2, OPENED) == |s| + QuoteLength(t, q, v2, OPENED)
  {
    hide QuoteLength, Peek;
    PeekPrefix(s, t);
    assert (s + t)[|s|..] == t;
    Step(s + t, q, v2, OPENED);
  }

  lemma PairRead(s: Bytes, t: Bytes, q: rune, v2: bool)
    requires PartOk(Pair(s), t, q, v2) && q != BACKSLASH
    ensures QuoteLength([Quoted.BACKSLASH] + s + t, q, v2, OPENED) == 1 + |s| + QuoteLength(t, q, v2, OPENED)
  {
    hide QuoteLength, Peek;
    var u := [Quoted.BACKSLASH] + (s + t);
    assert [Quoted.BACKSLASH] + s + t == u;
    AsciiAhead(Quoted.BACKSLASH, s + t);
    PeekPrefix(s, t);
    assert (s + t)[|s|..] == t;
    Step(u, q, v2, OPENED);
    Step(s + t, q, v2, QuoteState(true, false, false));
  }

  lemma {:induction false} BlanksRead(s: Bytes, t: Bytes, q: rune)
    requires Blanks(s) && !IsWhiteSpace(q) && !IsNewline(q)
    ensures QuoteLength(s + t, q, true, FOLDING) == |s| + QuoteLength(t, q, true, FOLDING)
    decreases |s|
  {
    hide QuoteLength, Peek;
    if s == [] {
      assert s + t == t;
    } else {
      PeekSizes(s);
      PeekPrefix(s, t);
      var n := Peek(s).size;
      assert (s + t)[n..] == s[n..] + t;
      Step(s + t, q, true, FOLDING);
      BlanksRead(s[n..], t, q);
    }
  }

  /** After folded blanks the reader is back in its first state, unless another blank follows. */
  lemma Unfolded(t: Bytes, q: rune)
    requires !BlankAhead(t)
    ensures QuoteLength(t, q, true, FOLDING) == QuoteLength(t, q, true, OPENED)
  {
    hide Peek;
  }

  lemma FoldRead(s: Bytes, t: Bytes, q: rune)
    requires PartOk(Fold(s), t, q, true) && !IsWhiteSpace(q) && !IsNewline(q) && q != BACKSLASH
    ensures QuoteLength([Quoted.BACKSLASH] + s + t, q, true, OPENED) == 1 + |s| + QuoteLength(t, q, true, OPENED)
  {
    hide QuoteLength, Decode;
    var u := [Quoted.BACKSLASH] + (s + t);
    assert [Quoted.BACKSLASH] + s + t == u;
    AsciiAhead(Quoted.BACKSLASH, s + t);
    assert (s + t)[0] == s[0] && (s + t)[1..] == s[1..] + t;
    Step(u, q, true, OPENED);
    Step(s + t, q, true, QuoteState(true, false, false));
    BlanksRead(s[1..], t, q);
    Unfolded(t, q);
  }

  lemma {:induction false} PartsRead(ps: seq<Part>, t: Bytes, q: rune, v2: bool)
    requires PartsOk(ps, t, q, v2) && !IsWhiteSpace(q) && !IsNewline(q) && q != BACKSLASH
    ensures QuoteLength(ShowAll(ps) + t, q, v2, OPENED) == |ShowAll(ps)| + QuoteLength(t, q, v2, OPENED)
    decreases |ps|
  {
    hide QuoteLength, PartOk;
    if ps == [] {
      assert ShowAll(ps) + t == t;
    } else {
      var more := ShowAll(ps[1..]) + t;
      PartsRead(ps[1..], t, q, v2);
      assert ShowAll(ps) + t == Shown(ps[0]) + more;
      match ps[0] {
        case Stand(s) => StandRead(s, more, q, v2);
        case Pair(s) => PairRead(s, more, q, v2);
        case Fold(s) =>
          assert v2 by { OnlyFold(s, more, q, v2); }
          FoldRead(s, more, q);
      }
    }
  }

  lemma OnlyFold(s: Bytes, after: Bytes, q: rune, v2: bool)
    requires PartOk(Fold(s), after, q, v2)
    ensures v2
  {}

  /** A quoted string of such parts is read up to its closing quote, whatever decodable text follows. */
  lemma PartsScan(ps: seq<Part>, rest: Bytes, v2: bool)
    requires PartsOk(ps, [Quoted.QUOTE] + rest, Tokenize.QUOTE, v2) && Peek(rest) != Bad(InvalidRune)
    ensures var s := [Quoted.QUOTE] + ShowAll(ps) + [Quoted.QUOTE]; QuotedScan(s + rest, Tokenize.QUOTE, v2) == Got(|s|)
  {
    hide QuoteLength, Peek;
    var e, t := ShowAll(ps), [Quoted.QUOTE] + rest;
    var s := [Quoted.QUOTE] + e + [Quoted.QUOTE];
    assert s + rest == [Quoted.QUOTE] + (e + t);
    AsciiAhead(Quoted.QUOTE, e + t);
    AsciiAhead(Quoted.QUOTE, rest);
    PartsRead(ps, t, Tokenize.QUOTE, v2);
    FinalQuote(rest, v2);
    assert (e + t)[|e| + 1..] == rest;
    BadKinds(rest);
  }

  /** In version 2 a line that ends without a backslash ends the string: it is never closed. */
  lemma LineEndsString(ps: seq<Part>, newline: byte, rest: Bytes)
    requires newline == 0x0A || newline == 0x0D
    requires PartsOk(ps, [newline] + rest, Tokenize.QUOTE, true) && ps != []
    ensures var s := [Quoted.QUOTE] + ShowAll(ps); QuotedScan(s + ([newline] + rest), Tokenize.QUOTE, true) == Got(|s|)
  {
    hide QuoteLength, Peek;
    var e, t := ShowAll(ps), [newline] + rest;
    var s := [Quoted.QUOTE] + e;
    assert s + t == [Quoted.QUOTE] + (e + t);
    AsciiAhead(Quoted.QUOTE, e + t);
    AsciiAhead(newline, rest);
    PartsRead(ps, t, Tokenize.QUOTE, true);
    StopsAt(t);
    assert (e + t)[|e|..] == t;
    NotNothing(ps, t);
  }

  lemma StopsAt(s: Bytes)
    requires s != [] && (s[0] == 0x0A || s[0] == 0x0D)
    ensures QuoteLength(s, Tokenize.QUOTE, true, OPENED) == 0
  {}

  lemma NotNothing(ps: seq<Part>, t: Bytes)
    requires PartsOk(ps, t, Tokenize.QUOTE, true) && ps != []
    ensures ShowAll(ps) != []
  {
    hide Peek;
    if ps[0].Stand? {
      PeekSizes(ps[0].s);
    }
  }
}
