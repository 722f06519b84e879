/** Whole tokens and whole inputs: readNext and ScanAll on the buffered scanner. */
module Scans {
  import opened Wrappers
  import opened Utf8
  import opened Tokens
  import opened Lookahead
  import opened Tokenize
  import opened Scanner
  import opened Readers
  import Runes

  // ---------- One token ----------

  /** The first rune, handed out and skipped. */
  method TakeOne(sc: Scanner) returns (d: Option<Slice>)
    requires sc.Valid() && Peek(Unread(sc)).Rune?
    modifies sc, sc.Live()
    ensures Consumed(sc, Peek(old(Unread(sc))).size) && Handed(sc, Peek(old(Unread(sc))).size, d)
  {
    hide Peek, Ordered, Reader.Rest, Ahead, Size, Raised;
    Standing(sc);
    var p := sc.PeekSize();
    var copied := sc.CopyInput(p.size);
    d := Some(copied);
    var q := Get(sc);
  }

  /** The first two runes, handed out and skipped. */
  method TakeTwo(sc: Scanner) returns (d: Option<Slice>)
    requires sc.Valid() && Peek(Unread(sc)).Rune? && Peek(Unread(sc)).size == 1 && PeekTwo(Unread(sc)).Two?
    modifies sc, sc.Live()
    ensures var t := PeekTwo(old(Unread(sc))); Consumed(sc, t.size1 + t.size2) && Handed(sc, t.size1 + t.size2, d)
  {
    hide Peek, Ordered, Reader.Rest, Ahead, Size, Raised;
    Standing(sc);
    TwoInSight(Unread(sc));
    var t := sc.PeekTwoSize();
    d := CopyTwo(sc, t);
    SkipTwo(sc);
  }

  method CopyTwo(sc: Scanner, t: PeekedTwo) returns (d: Option<Slice>)
    requires sc.Valid() && t.Two? && t.size1 + t.size2 <= sc.len
    ensures Consumed(sc, 0) && Unread(sc) == old(Unread(sc)) && Copied(sc, t.size1 + t.size2, d)
  {
    hide Peek, Ordered, Reader.Rest, Ahead, Size, Raised;
    Standing(sc);
    var copied := sc.CopyInput(t.size1 + t.size2);
    d := Some(copied);
  }

  method SkipTwo(sc: Scanner)
    requires sc.Valid() && PeekTwo(Unread(sc)).Two?
    modifies sc, sc.Live()
    ensures var t := PeekTwo(old(Unread(sc))); Consumed(sc, t.size1 + t.size2) && sc.offset > 0
  {
    hide Peek, Scanner.Valid, At, Unread;
    var p := Get(sc);
    var q := Get(sc);
  }

  /** A carriage return, with the line feed after it if there is one. */
  method ReadReturn(sc: Scanner) returns (d: Option<Slice>)
    requires sc.Valid() && Next(Unread(sc), '\r' as int)
    modifies sc, sc.Live()
    ensures var n := if Next(old(Unread(sc))[1..], '\n' as int) then 2 else 1; Consumed(sc, n) && Handed(sc, n, d)
  {
    hide Decode, Scanner.Valid, At, Unread;
    var t := LookTwo(sc);
    if t.Two? && t.c2 == '\n' as int {
      d := TakeTwo(sc);
    } else {
      d := TakeOne(sc);
    }
  }

  /** A comment, a slashdash, or nothing a slash may begin. */
  method ReadSlash(sc: Scanner) returns (id: TokenID, e: Option<ScanError>, d: Option<Slice>)
    requires sc.Valid() && Next(Unread(sc), SLASH)
    modifies sc, sc.Live()
    ensures ReadToken(sc, SlashToken(old(Unread(sc))), id, e, d)
  {
    hide Decode, Scanner.Valid, At, Unread, Comment, LineComment;
    id, e, d := Unknown, None, None;
    var t := LookTwo(sc);
    if t.BadTwo? {
      e := Some(t.e);
    } else if t.c2 == STAR {
      e, d := ReadComment(sc);
      id := MultiLineComment;
    } else if t.c2 == SLASH {
      e, d := ReadLineComment(sc);
      id := SingleLineComment;
    } else if t.c2 == '-' as int {
      d := TakeTwo(sc);
      id := TokenComment;
    } else {
      e := Some(BadCharacter);
    }
  }

  /** A number or an identifier that begins with a sign, or an identifier that begins with a question mark. */
  method ReadSign(sc: Scanner, v2: bool) returns (id: TokenID, e: Option<ScanError>, d: Option<Slice>)
    requires sc.Valid() && Peek(Unread(sc)).Rune?
    requires IsSign(Peek(Unread(sc)).c) || Peek(Unread(sc)).c == '?' as int
    modifies sc, sc.Live()
    ensures ReadToken(sc, SignToken(old(Unread(sc)), v2), id, e, d)
  {
    hide Decode, Scanner.Valid, At, Unread, Identifier, DecimalNumber;
    var p := Look(sc);
    var t := LookTwo(sc);
    if t.BadTwo? {
      if t.e.AtEnd? && p.c != '?' as int {
        id, e, d := ReadIdentifier(sc, v2);
        return;
      }
      return Unknown, Some(t.e), None;
    }
    if p.c != '?' as int && Runes.IsDigit(t.c2) {
      e, d := ReadDecimal(sc);
      id := Decimal;
    } else {
      id, e, d := ReadIdentifier(sc, v2);
    }
  }

  /** A number that begins with a zero. */
  method ReadZero(sc: Scanner) returns (id: TokenID, e: Option<ScanError>, d: Option<Slice>)
    requires sc.Valid() && Next(Unread(sc), '0' as int)
    modifies sc, sc.Live()
    ensures ReadToken(sc, ZeroToken(old(Unread(sc))), id, e, d)
  {
    hide Decode, Scanner.Valid, At, Unread, NumericBase, DecimalNumber;
    var t := LookTwo(sc);
    if t.BadTwo? {
      return Unknown, Some(t.e), None;
    }
    if t.c2 == 'x' as int {
      e, d := ReadBased(sc, Base16);
      id := Hexadecimal;
    } else if t.c2 == 'o' as int {
      e, d := ReadBased(sc, Base8);
      id := Octal;
    } else if t.c2 == 'b' as int {
      e, d := ReadBased(sc, Base2);
      id := Binary;
    } else {
      e, d := ReadDecimal(sc);
      id := Decimal;
    }
  }

  /** Everything that does not begin with whitespace, a newline or punctuation. */
  method ReadOther(sc: Scanner, v2: bool) returns (id: TokenID, e: Option<ScanError>, d: Option<Slice>)
    requires sc.Valid() && Peek(Unread(sc)).Rune?
    modifies sc, sc.Live()
    ensures ReadToken(sc, OtherToken(old(Unread(sc)), v2), id, e, d)
  {
    hide Decode, Scanner.Valid, At, Unread, Identifier, DecimalNumber, SlashToken, SignToken, ZeroToken, HashToken;
    var p := Look(sc);
    id, e, d := Unknown, None, None;
    if p.c == SLASH {
      id, e, d := ReadSlash(sc);
    } else if p.c == ',' as int {
      e := Some(BadCharacter);
    } else if IsSign(p.c) || p.c == '?' as int {
      id, e, d := ReadSign(sc, v2);
    } else if p.c == '0' as int {
      id, e, d := ReadZero(sc);
    } else if Runes.IsDigit(p.c) {
      e, d := ReadDecimal(sc);
      id := Decimal;
    } else {
      var dotted := false;
      if p.c == '.' as int && v2 {
        var t := LookTwo(sc);
        dotted := t.Two? && Runes.IsDigit(t.c2);
      }
      if dotted {
        e := Some(BadCharacter);
      } else if p.c == HASH && v2 {
        id, e, d := ReadHash(sc);
      } else {
        id, e, d := ReadIdentifier(sc, v2);
      }
    }
  }

  /** The buffer begins where the scanner stands only if the input does, or the scanner is inside a token. */
  ghost predicate Aligned(sc: Scanner)
    reads sc`base, sc`offset
  {
    sc.offset == 0 ==> sc.Pos() == 0
  }

  /** What readNext promises; whitespace before an invalid rune is consumed without being handed out. */
  twostate predicate NextRead(sc: Scanner, l: Lexeme, id: TokenID, new e: Option<ScanError>, new d: Option<Slice>)
    reads sc, sc.Repr(), if d.Some? then {d.value.a} else {}
  {
    if l.Lexeme? then
      && e.None? && id == l.id && Consumed(sc, l.n) && l.n <= |old(Unread(sc))| && Aligned(sc)
      && (if d.Some? then Handed(sc, l.n, d) else Peek(old(Unread(sc))[l.n..]) == Bad(InvalidRune))
    else e == Some(l.e) && Stopped(sc)
  }

  /**
    readNext: the token is a function of the unread input, whatever pieces it arrives in, and of whether
    the buffer begins here, where a byte order mark is taken for whitespace.  After a token it does not.
   */
  method ReadNext(sc: Scanner, v2: bool) returns (id: TokenID, e: Option<ScanError>, d: Option<Slice>)
    requires sc.Valid()
    modifies sc, sc.Live()
    ensures NextRead(sc, NextToken(old(Unread(sc)), v2, old(sc.offset == 0)), id, e, d)
  {
    hide Decode, Scanner.Valid, At, Unread, OtherToken, Runes.IsWhiteSpace;
    id, e, d := Unknown, None, None;
    var start := sc.offset == 0;
    var p := Look(sc);
    if p.Bad? {
      e := Some(p.e);
    } else if Runes.IsWhiteSpace(p.c) {
      d := ReadWhitespace(sc);
      id := Whitespace;
    } else if p.c == BOM {
      if start {
        d := TakeOne(sc);
        id := Whitespace;
      } else {
        e := Some(BadCharacter);
      }
    } else if p.c == '\r' as int {
      d := ReadReturn(sc);
      id := Newline;
    } else if Punctuation(p.c).Some? {
      d := TakeOne(sc);
      id := Punctuation(p.c).value;
    } else {
      id, e, d := ReadOther(sc, v2);
    }
  }

  // ---------- All tokens ----------

  datatype Lexed = Lexed(id: TokenID, data: Bytes)

  datatype Scanned = Tokens(ts: seq<Lexed>) | ScanFailed(e: ScanError)

  /** ScanAll on one big slice: an end of input reported by a reader ends the scan without an error. */
  function ScanFrom(s: Bytes, v2: bool, start: bool): Scanned
    decreases |s|
  {
    match NextToken(s, v2, start)
    case NoLexeme(e) => if e.AtEnd? then Tokens([]) else ScanFailed(e)
    case Lexeme(id, n) =>
      var rest := ScanFrom(s[n..], v2, false);
      if rest.ScanFailed? then rest else Tokens([Lexed(id, s[..n])] + rest.ts)
  }

  function Data(ts: seq<Lexed>): Bytes {
    if ts == [] then [] else ts[0].data + Data(ts[1..])
  }

  /** What a scan leaves out: nothing, or the bytes from an unfinished token to the end of the input. */
  function Dropped(s: Bytes, v2: bool, start: bool): Bytes
    decreases |s|
  {
    var l := NextToken(s, v2, start);
    if l.NoLexeme? then s else Dropped(s[l.n..], v2, false)
  }

  /** The tokens, none of them empty, are the input in order, up to a token the end of the input cuts short. */
  lemma {:induction false} ScanKeepsBytes(s: Bytes, v2: bool, start: bool)
    requires ScanFrom(s, v2, start).Tokens?
    ensures var ts := ScanFrom(s, v2, start).ts;
            && Data(ts) + Dropped(s, v2, start) == s
            && (forall t | t in ts :: t.data != []) && |ts| <= |s|
    decreases |s|
  {
    hide NextToken;
    var l := NextToken(s, v2, start);
    if l.Lexeme? {
      ScanKeepsBytes(s[l.n..], v2, false);
      var rest := ScanFrom(s[l.n..], v2, false).ts;
      assert ([Lexed(l.id, s[..l.n])] + rest)[1..] == rest;
      assert s == s[..l.n] + (Data(rest) + Dropped(s[l.n..], v2, false));
    }
  }

  lemma {:induction false} NothingDropped(s: Bytes, v2: bool, start: bool)
    requires ScanFrom(s, v2, start).Tokens? && (s == [] || EndsLine(s))
    ensures Dropped(s, v2, start) == []
    decreases |s|
  {
    hide NextToken;
    var l := NextToken(s, v2, start);
    if l.Lexeme? {
      NothingDropped(s[l.n..], v2, false);
    } else if s != [] {
      EndInsideToken(s, v2, start);
    }
  }

  /** An input that ends with a newline is the concatenation of its tokens. */
  lemma Lossless(s: Bytes, v2: bool)
    requires ScanFrom(s, v2, true).Tokens? && EndsLine(s)
    ensures Data(ScanFrom(s, v2, true).ts) == s
  {
    ScanKeepsBytes(s, v2, true);
    NothingDropped(s, v2, true);
  }

  /** Without the newline a scan can succeed and still lose the last token. */
  lemma LostToken()
    ensures ScanFrom(Ascii("0"), false, true) == Tokens([])
  {
    assert Ascii("0")[1..] == [];
  }

  // ---------- The buffered scanner ----------

  /** The scan meets a byte order mark where a token begins, but not at the beginning of the input. */
  predicate Misplaced(s: Bytes, v2: bool, start: bool)
    decreases |s|
  {
    var l := NextToken(s, v2, start);
    (Next(s, BOM) && !start) || (l.Lexeme? && Misplaced(s[l.n..], v2, false))
  }

  /** Over one big slice a misplaced byte order mark is an error. */
  lemma {:induction false} MisplacedFails(s: Bytes, v2: bool, start: bool)
    requires Misplaced(s, v2, start)
    ensures ScanFrom(s, v2, start).ScanFailed?
    decreases |s|
  {
    BomRefused(s, v2, start);
    hide NextToken;
    if !(Next(s, BOM) && !start) {
      MisplacedFails(s[NextToken(s, v2, start).n..], v2, false);
    }
  }

  lemma BomRefused(s: Bytes, v2: bool, start: bool)
    ensures Next(s, BOM) && !start ==> NextToken(s, v2, start) == NoLexeme(BadCharacter)
  {
    hide OtherToken, Decode;
  }

  datatype ScannedToken = ScannedToken(id: TokenID, data: Option<Slice>)

  /** The slice still holds the token's bytes, and nobody will write to it. */
  ghost predicate Stable(sc: Scanner, t: ScannedToken, l: Lexed)
    reads sc, if t.data.Some? then {t.data.value.a} else {}
  {
    && t.id == l.id && t.data.Some? && t.data.value.InRange()
    && t.data.value.a !in sc.Live() && t.data.value.Bytes() == l.data
  }

  /** Between tokens the beginning of the buffer is met only at the beginning of the input. */
  lemma StartAgrees(sc: Scanner)
    requires Aligned(sc)
    ensures sc.offset == 0 <==> At(sc).pos == 0
  {}

  function Prepend(done: seq<Lexed>, r: Scanned): Scanned {
    if r.Tokens? then Tokens(done + r.ts) else r
  }

  lemma PrependNothing(r: Scanned)
    ensures Prepend([], r) == r
  {
    if r.Tokens? {
      assert [] + r.ts == r.ts;
    }
  }

  lemma PrependTwice(done: seq<Lexed>, l: Lexed, r: Scanned)
    ensures Prepend(done, Prepend([l], r)) == Prepend(done + [l], r)
  {
    if r.Tokens? {
      assert done + ([l] + r.ts) == (done + [l]) + r.ts;
    }
  }

  lemma PrependEnd(done: seq<Lexed>)
    ensures Prepend(done, Tokens([])) == Tokens(done)
  {
    assert done + [] == done;
  }

  lemma ScanStep(s: Bytes, v2: bool, start: bool)
    ensures var l := NextToken(s, v2, start);
            ScanFrom(s, v2, start)
            == if l.NoLexeme? then (if l.e.AtEnd? then Tokens([]) else ScanFailed(l.e))
               else Prepend([Lexed(l.id, s[..l.n])], ScanFrom(s[l.n..], v2, false))
  {
    hide NextToken;
  }

  lemma InvalidNext(s: Bytes, v2: bool, start: bool)
    requires Peek(s) == Bad(InvalidRune)
    ensures NextToken(s, v2, start) == NoLexeme(InvalidRune)
  {}

  /** The next token, which leaves every slice handed out before as it was. */
  method Proceed(sc: Scanner, v2: bool, ghost tokens: seq<ScannedToken>, ghost ls: seq<Lexed>)
    returns (id: TokenID, e: Option<ScanError>, d: Option<Slice>)
    requires sc.Valid() && Aligned(sc)
    requires |ls| <= |tokens| && forall i | 0 <= i < |ls| :: Stable(sc, tokens[i], ls[i])
    modifies sc, sc.Live()
    ensures NextRead(sc, NextToken(old(Unread(sc)), v2, old(At(sc)).pos == 0), id, e, d)
    ensures sc.Valid() && Onward(sc) && (e.None? ==> Aligned(sc))
    ensures forall i | 0 <= i < |ls| :: Stable(sc, tokens[i], ls[i])
  {
    hide Scanner.Valid, NextToken, Peek;
    ghost var c := At(sc);
    StartAgrees(sc);
    id, e, d := ReadNext(sc, v2);
    if e.None? {
      RestPast(c, NextToken(c.Rest(), v2, c.pos == 0).n);
    }
  }

  /** What a token adds: its bytes in a slice that stays, or a failure of the whole scan to come. */
  lemma OneMore(sc: Scanner, l: Lexeme, s: Bytes, d: Option<Slice>)
    requires l.Lexeme? && l.n <= |s| && d.Some? && d.value.InRange() && d.value.a !in sc.Live()
    requires d.value.Bytes() == s[..l.n]
    ensures Stable(sc, ScannedToken(l.id, d), Lexed(l.id, s[..l.n]))
  {}

  /**
    ScanAll: the tokens of the buffered scanner are those of a scanner over the whole input, and when it
    returns every slice it has handed out, to the first token's, still holds its token's bytes.
   */
  method ScanAll(sc: Scanner, v2: bool) returns (e: Option<ScanError>, tokens: seq<ScannedToken>)
    requires sc.Valid() && Aligned(sc)
    modifies sc, sc.Live()
    ensures sc.Valid() && Onward(sc)
    ensures old(sc.err).Some? ==> e == old(sc.err)
    ensures old(sc.err).None? ==>
              var r := ScanFrom(old(Unread(sc)), v2, old(At(sc)).pos == 0);
              if r.ScanFailed? then e == Some(r.e)
              else e.None? && |tokens| == |r.ts| && forall i | 0 <= i < |tokens| :: Stable(sc, tokens[i], r.ts[i])
  {
    hide Scanner.Valid, NextToken, Peek, ScanFrom, Stable, Aligned, Prepend, At;
    e, tokens := sc.err, [];
    if e.Some? {
      return;
    }
    ghost var ls: seq<Lexed>, lost := [], false;
    ghost var goal := ScanFrom(Unread(sc), v2, At(sc).pos == 0);
    PrependNothing(goal);
    while true
      invariant sc.Valid() && Onward(sc) && Aligned(sc)
      invariant goal == if lost then ScanFailed(InvalidRune) else Prepend(ls, ScanFrom(Unread(sc), v2, At(sc).pos == 0))
      invariant if lost then |ls| < |tokens| && Peek(Unread(sc)) == Bad(InvalidRune) else |ls| == |tokens|
      invariant forall i | 0 <= i < |ls| :: Stable(sc, tokens[i], ls[i])
      decreases |Unread(sc)|
    {
      ghost var c := At(sc);
      ghost var l := NextToken(c.Rest(), v2, c.pos == 0);
      ScanStep(c.Rest(), v2, c.pos == 0);
      if lost {
        InvalidNext(c.Rest(), v2, c.pos == 0);
      }
      var id, d;
      id, e, d := Proceed(sc, v2, tokens, ls);
      if e.Some? {
        EndOfScan(ls, e.value);
        if e.value.AtEnd? {
          e := None;
        }
        return;
      }
      RestPast(c, l.n);
      tokens := tokens + [ScannedToken(id, d)];
      ghost var one := Lexed(l.id, c.Rest()[..l.n]);
      GoesOn(ls, one, c.Rest(), l.n, v2);
      if d.None? {
        lost := true;
      } else {
        OneMore(sc, l, c.Rest(), d);
        ls := ls + [one];
      }
    }
  }

  lemma EndOfScan(ls: seq<Lexed>, e: ScanError)
    ensures Prepend(ls, Tokens([])) == Tokens(ls) && Prepend(ls, ScanFailed(e)) == ScanFailed(e)
  {
    PrependEnd(ls);
  }

  /** The scan after one token, and its failure when an invalid rune follows. */
  lemma GoesOn(ls: seq<Lexed>, one: Lexed, s: Bytes, n: nat, v2: bool)
    requires n <= |s|
    ensures var rest := ScanFrom(s[n..], v2, false);
            && Prepend(ls, Prepend([one], rest)) == Prepend(ls + [one], rest)
            && (Peek(s[n..]) == Bad(InvalidRune) ==> Prepend(ls, Prepend([one], rest)) == ScanFailed(InvalidRune))
  {
    PrependTwice(ls, one, ScanFrom(s[n..], v2, false));
    if Peek(s[n..]) == Bad(InvalidRune) {
      InvalidNext(s[n..], v2, false);
    }
  }
}
