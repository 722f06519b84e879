/**
  The tokenizer's readers on the buffered scanner.  Each consumes exactly what its function of the
  unread input says, whatever pieces the input arrives in, and hands out bytes that stay as they are.
 */
module Readers {
  import opened Wrappers
  import opened Utf8
  import opened Tokens
  import opened Lookahead
  import opened Tokenize
  import opened Scanner
  import Runes

  /** Where a scanner stands in its input. */
  datatype Cursor = Cursor(stream: Bytes, pos: nat, marks: seq<nat>, err: Option<ScanError>) {
    function Rest(): Bytes {
      if pos <= |stream| then stream[pos..] else []
    }

    function Past(n: nat): Cursor { this.(pos := pos + n) }
  }

  ghost function At(sc: Scanner): Cursor
    reads sc`base, sc`offset, sc`marks, sc`err
  {
    Cursor(sc.stream, sc.Pos(), sc.Marks(), sc.err)
  }

  /** The unread input. */
  ghost function Unread(sc: Scanner): Bytes
    reads sc`base, sc`offset, sc`marks, sc`err
  {
    At(sc).Rest()
  }

  /** No reader comes back, and a buffer that is no longer written to stays. */
  twostate predicate Onward(sc: Scanner)
    reads sc`r, sc`buf, sc`base
  {
    (old(sc.r) == null ==> sc.base == old(sc.base)) &&
    (sc.r == null || sc.r == old(sc.r)) && (sc.buf == old(sc.buf) || (old(sc.r) != null && fresh(sc.buf)))
  }

  /** n bytes have been consumed and nothing else has happened. */
  twostate predicate Consumed(sc: Scanner, n: nat)
    reads sc, sc.Repr()
  {
    sc.Valid() && Onward(sc) && At(sc) == old(At(sc)).Past(n)
  }

  /** A reader that fails may have consumed part of the input. */
  twostate predicate Stopped(sc: Scanner)
    reads sc, sc.Repr()
  {
    sc.Valid() && Onward(sc) && At(sc).marks == old(At(sc)).marks && At(sc).err == old(At(sc)).err
  }

  /** The reader has consumed what the outcome says. */
  twostate predicate Followed(sc: Scanner, q: Scan)
    reads sc, sc.Repr()
  {
    Stopped(sc) && (q.Got? ==> At(sc) == old(At(sc)).Past(q.n))
  }

  lemma RestPast(c: Cursor, n: nat)
    requires n <= |c.Rest()|
    ensures c.Past(n).Rest() == c.Rest()[n..]
  {}

  /** The cursor is where the scanner's own position is. */
  lemma Standing(sc: Scanner)
    requires sc.Valid()
    ensures sc.WindowOk() && Unread(sc) == sc.Rest()
  {}

  // ---------- Single steps ----------

  method Get(sc: Scanner) returns (p: Peeked)
    requires sc.Valid()
    modifies sc, sc.Live()
    ensures p == Peek(old(Unread(sc))) && Consumed(sc, if p.Rune? then p.size else 0)
    ensures p.Rune? ==> p.size <= |old(Unread(sc))| && Unread(sc) == old(Unread(sc))[p.size..] && sc.offset > 0
    ensures p.Bad? ==> Unread(sc) == old(Unread(sc))
  {
    hide Peek, Ordered, Reader.Rest, Ahead, Size, Raised;
    Standing(sc);
    p := sc.Get();
    if p.Rune? {
      RestPast(old(At(sc)), p.size);
    }
  }

  method Look(sc: Scanner) returns (p: Peeked)
    requires sc.Valid()
    modifies sc`peeked
    ensures p == Peek(Unread(sc)) && Consumed(sc, 0) && Unread(sc) == old(Unread(sc))
  {
    Standing(sc);
    p := sc.PeekSize();
  }

  /** peekTwo; certain when the first rune is one byte long. */
  method LookTwo(sc: Scanner) returns (t: PeekedTwo)
    requires sc.Valid()
    modifies sc`peeked
    ensures Consumed(sc, 0) && Unread(sc) == old(Unread(sc))
    ensures t.Two? ==> t == PeekTwo(Unread(sc))
    ensures Peek(Unread(sc)).Rune? && Peek(Unread(sc)).size == 1 ==> t == PeekTwo(Unread(sc))
    ensures Unread(sc) == [] ==> t == PeekTwo(Unread(sc))
  {
    hide Peek;
    Standing(sc);
    TwoInSight(sc.Rest());
    t := sc.PeekTwoSize();
  }

  lemma TwoInSight(s: Bytes)
    ensures Peek(s).Rune? && Peek(s).size == 1 ==> Reach(s, 1) <= 5
    ensures s == [] ==> Reach(s, 1) <= 5
  {}

  /** peekAt after n one-byte runes q, compared with another. */
  method LookAt(sc: Scanner, q: rune, n: nat) returns (b: bool)
    requires sc.Valid() && q < 0x80 && n <= 2
    requires (n >= 1 ==> Next(Unread(sc), q)) && (n >= 2 ==> Next(Unread(sc)[1..], q))
    modifies sc, sc.Live()
    ensures n <= |old(Unread(sc))| && b == Next(old(Unread(sc))[n..], q)
    ensures Consumed(sc, 0) && Unread(sc) == old(Unread(sc))
  {
    hide Peek, Reach, Span, PeekAt, Ordered, Reader.Rest, Ahead, Size, Raised;
    Standing(sc);
    InSight(Unread(sc), q, n);
    var p := sc.PeekAtSize(n);
    b := p.Rune? && p.c == q;
  }

  lemma InSight(s: Bytes, q: rune, n: nat)
    requires q < 0x80 && n <= 2 && (n >= 1 ==> Next(s, q)) && (n >= 2 ==> Next(s[1..], q))
    ensures n <= |s| && PeekAt(s, n) == Peek(s[n..])
    ensures Next(s[n..], q) ==> Span(s, n) <= 3
  {
    hide Decode;
    if n == 0 {
      assert s[0..] == s;
    } else if n == 1 {
    } else {
      assert s[1..][1..] == s[2..];
    }
  }

  /** peekThree, compared with a one-byte rune. */
  method LookThree(sc: Scanner, q: rune) returns (b: bool)
    requires sc.Valid() && q < 0x80
    modifies sc, sc.Live()
    ensures b == Thrice(old(Unread(sc)), q)
    ensures Consumed(sc, 0) && Unread(sc) == old(Unread(sc))
  {
    hide Peek, Scanner.Valid;
    assert Unread(sc)[0..] == Unread(sc);
    b := LookAt(sc, q, 0);
    if b {
      b := LookAt(sc, q, 1);
    }
    if b {
      b := LookAt(sc, q, 2);
    }
  }

  /** peek and skip: the rune is consumed if it is c. */
  method Accept(sc: Scanner, c: rune) returns (b: bool)
    requires sc.Valid() && c < 0x80
    modifies sc, sc.Live()
    ensures b == Next(old(Unread(sc)), c) && Consumed(sc, if b then 1 else 0)
    ensures Unread(sc) == old(Unread(sc))[if b then 1 else 0..]
  {
    hide Decode, Scanner.Valid;
    var p := Look(sc);
    b := p.Rune? && p.c == c;
    if b {
      p := Get(sc);
    }
  }

  // ---------- Runs ----------

  /** One round of readWhile: peek, and skip if the rune is accepted. */
  method Step(sc: Scanner, valid: (nat, rune) -> bool, i: nat) returns (p: Peeked, ok: bool)
    requires sc.Valid()
    modifies sc, sc.Live()
    ensures p == Peek(old(Unread(sc))) && ok == (p.Rune? && valid(i, p.c))
    ensures Consumed(sc, if ok then p.size else 0)
    ensures if ok then 1 <= p.size <= |old(Unread(sc))| && Unread(sc) == old(Unread(sc))[p.size..]
            else Unread(sc) == old(Unread(sc))
  {
    hide Peek, Scanner.Valid, At, Unread;
    PeekSizeBound(Unread(sc));
    p := Look(sc);
    ok := p.Rune? && valid(i, p.c);
    if ok {
      p := Get(sc);
    }
  }

  lemma Continued(s: Bytes, k: nat, n: nat)
    requires k + n <= |s|
    ensures s[k..][n..] == s[k + n..]
  {}

  lemma RunStep(s: Bytes, k: nat, i: nat, valid: (nat, rune) -> bool)
    requires k <= |s| && Peek(s[k..]).Rune? && valid(i, Peek(s[k..]).c)
    ensures var size := Peek(s[k..]).size;
            k + size <= |s| && RunLength(s[k..], i, valid) == size + RunLength(s[k + size..], i + 1, valid)
  {
    assert s[k..][Peek(s[k..]).size..] == s[k + Peek(s[k..]).size..];
  }

  /** The loop of readWhile and readUntil. */
  method Run(sc: Scanner, valid: (nat, rune) -> bool) returns (stop: Peeked, any: bool)
    requires sc.Valid()
    modifies sc, sc.Live()
    ensures var n := RunLength(old(Unread(sc)), 0, valid);
            && Consumed(sc, n) && Unread(sc) == old(Unread(sc))[n..]
            && any == (n > 0) && stop == Peek(Unread(sc))
  {
    hide Peek, Scanner.Valid, At, Unread;
    var i: nat, ok := 0, true;
    ghost var k: nat := 0;
    ghost var s := Unread(sc);
    any := false;
    stop := Bad(AtEnd);
    while ok
      invariant Consumed(sc, k) && any == (k > 0) && k <= |s| && Unread(sc) == s[k..]
      invariant RunLength(s, 0, valid) == k + if ok then RunLength(s[k..], i, valid) else 0
      invariant ok || stop == Peek(Unread(sc))
      decreases |Unread(sc)|, ok
    {
      stop, ok := Step(sc, valid, i);
      if ok {
        Continued(s, k, stop.size);
        RunStep(s, k, i, valid);
        k := k + stop.size;
        any := true;
        i := i + 1;
      }
    }
  }

  // ---------- Marks ----------

  /** The slice holds the first n bytes of what was unread, and nobody will write to it. */
  twostate predicate Copied(sc: Scanner, n: nat, new d: Option<Slice>)
    reads sc, if d.Some? then {d.value.a} else {}
  {
    && d.Some? && d.value.InRange() && d.value.a !in sc.Live()
    && n <= |old(Unread(sc))| && d.value.Bytes() == old(Unread(sc))[..n]
  }

  /** Bytes that have been passed are still in the buffer. */
  ghost predicate Behind(sc: Scanner, n: nat)
    reads sc`offset
  {
    n > 0 ==> sc.offset > 0
  }

  /** The slice holds the n bytes that have been passed last. */
  twostate predicate Handed(sc: Scanner, n: nat, new d: Option<Slice>)
    reads sc, if d.Some? then {d.value.a} else {}
  {
    Copied(sc, n, d) && Behind(sc, n)
  }

  /** A mark lies in the buffer. */
  lemma MarkInBuffer(sc: Scanner)
    requires sc.Valid() && At(sc).marks != []
    ensures At(sc).pos <= At(sc).marks[|At(sc).marks| - 1] + sc.offset
  {}

  method Mark(sc: Scanner)
    requires sc.Valid()
    modifies sc`marks
    ensures sc.Valid() && Onward(sc) && Unread(sc) == old(Unread(sc))
    ensures var c := old(At(sc)); At(sc) == c.(marks := c.marks + [c.pos])
  {
    sc.PushMark();
  }

  method Unmark(sc: Scanner)
    requires sc.Valid() && At(sc).marks != []
    modifies sc`marks
    ensures sc.Valid() && Onward(sc) && Unread(sc) == old(Unread(sc))
    ensures var c := old(At(sc)); At(sc) == c.(marks := c.marks[..|c.marks| - 1])
  {
    sc.PopMark();
  }

  /** copyFromMark */
  method FromMark(sc: Scanner) returns (d: Option<Slice>)
    requires sc.Valid() && At(sc).marks != []
    ensures sc.Valid() && Onward(sc) && At(sc) == old(At(sc)) && Unread(sc) == old(Unread(sc))
    ensures var c := At(sc); var m := c.marks[|c.marks| - 1];
            && d.Some? && d.value.InRange() && d.value.a !in sc.Live()
            && m <= c.pos <= |c.stream| && d.value.Bytes() == c.stream[m..c.pos]
  {
    hide Ordered, Reader.Rest, Ahead, Size, Raised;
    var copied := sc.CopyFromMark();
    d := Some(copied);
  }

  /** The bytes between a mark and the position n bytes further on. */
  lemma MarkedBytes(c: Cursor, n: nat)
    requires c.pos + n <= |c.stream|
    ensures n <= |c.Rest()| && c.Rest()[..n] == c.stream[c.pos..c.pos + n]
  {}

  /** The error a reader returns, if any. */
  function ErrorOf(q: Scan): Option<ScanError> {
    if q.Failed? then Some(q.e) else None
  }

  /** The end of a reader that began with a mark: its bytes if it succeeded, and the mark undone. */
  method Conclude(sc: Scanner, e: Option<ScanError>, ghost q: Scan, ghost c: Cursor) returns (d: Option<Slice>)
    requires sc.Valid() && At(sc).marks == c.marks + [c.pos] && At(sc).err == c.err && e == ErrorOf(q)
    requires q.Got? ==> At(sc) == c.Past(q.n).(marks := c.marks + [c.pos]) && q.n <= |c.Rest()|
    modifies sc`marks
    ensures sc.Valid() && Onward(sc) && At(sc).marks == c.marks && At(sc).err == c.err && (q.Got? ==> Behind(sc, q.n))
    ensures q.Got? ==> At(sc) == c.Past(q.n) && d.Some? && d.value.InRange() && d.value.a !in sc.Live()
    ensures q.Got? ==> d.value.Bytes() == c.Rest()[..q.n]
  {
    hide Scanner.Valid, At;
    MarkInBuffer(sc);
    d := None;
    if e.None? {
      d := FromMark(sc);
      MarkedBytes(c, q.n);
    }
    Unmark(sc);
    assert (c.marks + [c.pos])[..|c.marks|] == c.marks;
  }

  /** What a marked reader promises: the outcome q, and on success its bytes. */
  twostate predicate Read(sc: Scanner, q: Scan, new e: Option<ScanError>, new d: Option<Slice>)
    reads sc, sc.Repr(), if d.Some? then {d.value.a} else {}
  {
    e == ErrorOf(q) && Followed(sc, q) && (q.Got? ==> Handed(sc, q.n, d))
  }

  // ---------- readWhile and its users ----------

  /** The bytes since the newest mark. */
  method SinceMark(sc: Scanner) returns (n: nat)
    requires sc.Valid() && At(sc).marks != []
    ensures sc.Valid() && Onward(sc) && At(sc) == old(At(sc))
    ensures At(sc).marks[|At(sc).marks| - 1] + n == At(sc).pos
  {
    OrderedLast(sc.marks, sc.offset);
    n := sc.offset - sc.marks[|sc.marks| - 1];
  }

  lemma OrderedLast(marks: seq<nat>, offset: nat)
    requires marks != [] && Ordered(marks, offset)
    ensures marks[|marks| - 1] <= offset
  {}

  /** readWhile up to the choice of its result, the mark being set. */
  method WhileMarked(sc: Scanner, valid: (nat, rune) -> bool, minLength: nat) returns (e: Option<ScanError>)
    requires sc.Valid() && At(sc).marks != [] && At(sc).marks[|At(sc).marks| - 1] == At(sc).pos
    modifies sc, sc.Live()
    ensures var q := While(old(Unread(sc)), valid, minLength); e == ErrorOf(q) && Followed(sc, q)
  {
    hide Peek, Scanner.Valid, At, Unread;
    var stop, any := Run(sc, valid);
    var n := SinceMark(sc);
    e := if stop.Bad? && !stop.e.AtEnd? then Some(stop.e)
         else if !any then Some(BadCharacter)
         else if n < minLength then Some(EndOfToken)
         else None;
  }

  method ReadWhile(sc: Scanner, valid: (nat, rune) -> bool, minLength: nat)
    returns (e: Option<ScanError>, d: Option<Slice>)
    requires sc.Valid()
    modifies sc, sc.Live()
    ensures Read(sc, While(old(Unread(sc)), valid, minLength), e, d)
  {
    hide Peek, Scanner.Valid, At, While;
    ghost var c := At(sc);
    Mark(sc);
    e := WhileMarked(sc, valid, minLength);
    d := Conclude(sc, e, While(c.Rest(), valid, minLength), c);
  }

  /** readWhitespace; an error after the whitespace is swallowed and leaves no bytes. */
  method ReadWhitespace(sc: Scanner) returns (d: Option<Slice>)
    requires sc.Valid()
    modifies sc, sc.Live()
    ensures var s, n := old(Unread(sc)), RunLength(old(Unread(sc)), 0, White());
            && Consumed(sc, n) && Behind(sc, n)
            && (if d.Some? then Handed(sc, n, d) else Peek(s[n..]) == Bad(InvalidRune))
  {
    hide Peek, Scanner.Valid, At;
    ghost var c := At(sc);
    Mark(sc);
    var stop, any := Run(sc, White());
    BadKind(Unread(sc));
    var e := if stop.Bad? && !stop.e.AtEnd? then Some(stop.e) else None;
    d := ConcludeSome(sc, e, RunLength(c.Rest(), 0, White()), c);
  }

  lemma BadKind(s: Bytes)
    ensures Peek(s).Bad? ==> Peek(s).e.AtEnd? || Peek(s).e.InvalidRune?
  {}

  /** The same conclusion when the bytes have been consumed in either case. */
  method ConcludeSome(sc: Scanner, e: Option<ScanError>, ghost n: nat, ghost c: Cursor) returns (d: Option<Slice>)
    requires sc.Valid() && At(sc) == c.Past(n).(marks := c.marks + [c.pos]) && n <= |c.Rest()|
    modifies sc`marks
    ensures sc.Valid() && Onward(sc) && At(sc) == c.Past(n) && d.Some? == e.None? && Behind(sc, n)
    ensures d.Some? ==> d.value.InRange() && d.value.a !in sc.Live() && d.value.Bytes() == c.Rest()[..n]
  {
    hide Scanner.Valid, At;
    MarkInBuffer(sc);
    d := None;
    if e.None? {
      d := FromMark(sc);
      MarkedBytes(c, n);
    }
    Unmark(sc);
    assert (c.marks + [c.pos])[..|c.marks|] == c.marks;
  }

  /** readSingleLineComment; the end of the input ends it like a newline. */
  method ReadLineComment(sc: Scanner) returns (e: Option<ScanError>, d: Option<Slice>)
    requires sc.Valid()
    modifies sc, sc.Live()
    ensures Read(sc, LineComment(old(Unread(sc))), e, d)
  {
    hide Peek, Scanner.Valid, At, LineComment;
    ghost var c := At(sc);
    Mark(sc);
    e := LineMarked(sc);
    d := Conclude(sc, e, LineComment(c.Rest()), c);
  }

  method LineMarked(sc: Scanner) returns (e: Option<ScanError>)
    requires sc.Valid()
    modifies sc, sc.Live()
    ensures var q := LineComment(old(Unread(sc))); e == ErrorOf(q) && Followed(sc, q)
  {
    hide Peek, Scanner.Valid, At, Unread;
    var stop, any := Run(sc, NotNewline());
    e := if stop.Bad? && !stop.e.AtEnd? then Some(stop.e) else None;
  }

  /** readMultiLineComment */
  method ReadComment(sc: Scanner) returns (e: Option<ScanError>, d: Option<Slice>)
    requires sc.Valid()
    modifies sc, sc.Live()
    ensures Read(sc, Comment(old(Unread(sc)), 0), e, d)
  {
    hide Peek, Scanner.Valid, At, Comment;
    ghost var c := At(sc);
    Mark(sc);
    e := CommentMarked(sc);
    d := Conclude(sc, e, Comment(c.Rest(), 0), c);
  }

  /** One rune of a comment, or two that open or close one. */
  method CommentStep(sc: Scanner, depth: int) returns (e: Option<ScanError>, depth': int, ghost n: nat)
    requires sc.Valid()
    modifies sc, sc.Live()
    ensures if e.Some? then Comment(old(Unread(sc)), depth) == Failed(e.value) && Stopped(sc)
            else Consumed(sc, n) && |Unread(sc)| < |old(Unread(sc))|
                 && Comment(old(Unread(sc)), depth)
                    == if depth' == 0 && depth == 1 then Got(n) else Plus(n, Comment(Unread(sc), depth'))
  {
    hide Peek, Scanner.Valid, At, Unread;
    PeekSizeBound(Unread(sc));
    var p := Get(sc);
    if p.Bad? {
      return Some(Inside(p.e)), depth, 0;
    }
    e, depth', n := None, depth, p.size;
    if p.c == STAR {
      var closes := Accept(sc, SLASH);
      if closes {
        depth' := depth - 1;
        n := n + 1;
      }
    } else if p.c == SLASH {
      var opens := Accept(sc, STAR);
      if opens {
        depth' := depth + 1;
        n := n + 1;
      }
    }
  }

  method CommentMarked(sc: Scanner) returns (e: Option<ScanError>)
    requires sc.Valid()
    modifies sc, sc.Live()
    ensures var q := Comment(old(Unread(sc)), 0); e == ErrorOf(q) && Followed(sc, q)
  {
    hide Comment, Scanner.Valid, At, Unread;
    e := None;
    var depth, done := 0, false;
    ghost var s, k: nat := Unread(sc), 0;
    while !done
      invariant Consumed(sc, k)
      invariant Comment(s, 0) == if done then Got(k) else Plus(k, Comment(Unread(sc), depth))
      decreases |Unread(sc)|, !done
    {
      ghost var n;
      var before := depth;
      e, depth, n := CommentStep(sc, depth);
      if e.Some? {
        return;
      }
      k := k + n;
      done := depth == 0 && before == 1;
    }
    e := None;
  }

  // ---------- Raw strings ----------

  /** At most h number signs are consumed. */
  method SkipHashes(sc: Scanner, h: nat) returns (matched: nat)
    requires sc.Valid()
    modifies sc, sc.Live()
    ensures matched == HashRun(old(Unread(sc)), h) && Consumed(sc, matched)
    ensures Unread(sc) == old(Unread(sc))[matched..]
  {
    hide Peek, Scanner.Valid, At, Unread;
    matched := 0;
    ghost var s := Unread(sc);
    var more := true;
    while more && matched < h
      invariant matched <= h && matched <= |s| && Consumed(sc, matched) && Unread(sc) == s[matched..]
      invariant HashRun(s, h) == matched + if more then HashRun(Unread(sc), h - matched) else 0
      decreases h - matched, more
    {
      HashIsByte(Unread(sc));
      more := Accept(sc, HASH);
      if more {
        Continued(s, matched, 1);
        matched := matched + 1;
      }
    }
  }

  lemma HashIsByte(s: Bytes)
    ensures Next(s, HASH) ==> s != []
  {}

  /** One rune of a raw string, with the number signs after a quote; n bytes in all. */
  method RawStep(sc: Scanner, h: nat, v2: bool) returns (e: Option<ScanError>, done: bool, ghost n: nat)
    requires sc.Valid()
    modifies sc, sc.Live()
    ensures if e.Some? then RawContent(old(Unread(sc)), h, v2) == Failed(e.value) && Stopped(sc)
            else Consumed(sc, n) && |Unread(sc)| < |old(Unread(sc))|
                 && RawContent(old(Unread(sc)), h, v2) == if done then Got(n) else Plus(n, RawContent(Unread(sc), h, v2))
  {
    hide Peek, Scanner.Valid, At, Unread;
    PeekSizeBound(Unread(sc));
    var p := Get(sc);
    if p.Bad? {
      return Some(Inside(p.e)), false, 0;
    }
    e, done, n := None, false, p.size;
    if p.c == QUOTE {
      var matched := SkipHashes(sc, h);
      done := matched == h;
      n := p.size + matched;
    } else if v2 && Runes.IsNewline(p.c) {
      e := Some(BadCharacter);
    }
  }

  /** readRawStringContent */
  method ReadRawContent(sc: Scanner, h: nat, v2: bool) returns (e: Option<ScanError>)
    requires sc.Valid()
    modifies sc, sc.Live()
    ensures var q := RawContent(old(Unread(sc)), h, v2); e == ErrorOf(q) && Followed(sc, q)
  {
    hide RawContent, Scanner.Valid, At, Unread;
    e := None;
    var done := false;
    ghost var s, k: nat := Unread(sc), 0;
    while !done
      invariant Consumed(sc, k)
      invariant RawContent(s, h, v2) == if done then Got(k) else Plus(k, RawContent(Unread(sc), h, v2))
      decreases |Unread(sc)|, !done
    {
      ghost var n;
      e, done, n := RawStep(sc, h, v2);
      if e.Some? {
        return;
      }
      k := k + n;
    }
    e := None;
  }

  /** readRawString */
  method ReadRawString(sc: Scanner, v2: bool) returns (e: Option<ScanError>, d: Option<Slice>)
    requires sc.Valid()
    modifies sc, sc.Live()
    ensures Read(sc, RawScan(old(Unread(sc)), v2), e, d)
  {
    hide Peek, Scanner.Valid, At, RawScan;
    ghost var c := At(sc);
    Mark(sc);
    e := RawMarked(sc, v2);
    d := Conclude(sc, e, RawScan(c.Rest(), v2), c);
  }

  method RawMarked(sc: Scanner, v2: bool) returns (e: Option<ScanError>)
    requires sc.Valid()
    modifies sc, sc.Live()
    ensures var q := RawScan(old(Unread(sc)), v2); e == ErrorOf(q) && Followed(sc, q)
  {
    hide Scanner.Valid, At, Unread, Decode, RawFrom, RawContent;
    ghost var s := Unread(sc);
    var p := Get(sc);
    if p.Bad? {
      return Some(Inside(p.e));
    }
    if p.c != 'r' as int {
      return Some(BadCharacter);
    }
    e := RawOpening(sc, v2);
  }

  /** The number signs and the opening quote, then the content. */
  method RawOpening(sc: Scanner, v2: bool) returns (e: Option<ScanError>)
    requires sc.Valid()
    modifies sc, sc.Live()
    ensures var q := RawFrom(old(Unread(sc)), 0, v2); e == ErrorOf(q) && Followed(sc, q)
  {
    hide Scanner.Valid, At, Unread, Decode, RawContent;
    var startHashes: nat := 0;
    ghost var s, k: nat := Unread(sc), 0;
    while true
      invariant Consumed(sc, k)
      invariant RawFrom(s, 0, v2) == Plus(k, RawFrom(Unread(sc), startHashes, v2))
      decreases |Unread(sc)|
    {
      var p := Get(sc);
      if p.Bad? {
        return Some(Inside(p.e));
      }
      k := k + p.size;
      if p.c == QUOTE {
        break;
      }
      if p.c != HASH {
        return Some(BadCharacter);
      }
      startHashes := startHashes + 1;
    }
    e := ReadRawContent(sc, startHashes, v2);
  }

  // ---------- Quoted strings ----------

  /** peekAt(1) after a one-byte rune. */
  method LookSecond(sc: Scanner, c: rune) returns (b: bool)
    requires sc.Valid() && Peek(Unread(sc)).Rune? && Peek(Unread(sc)).size == 1
    modifies sc, sc.Live()
    ensures b == Next(old(Unread(sc))[1..], c) && Consumed(sc, 0) && Unread(sc) == old(Unread(sc))
  {
    hide Peek, Reach, Span, PeekAt, Ordered, Reader.Rest, Ahead, Size, Raised;
    Standing(sc);
    SecondInSight(Unread(sc));
    var p := sc.PeekAtSize(1);
    b := p.Rune? && p.c == c;
  }

  lemma SecondInSight(s: Bytes)
    requires Peek(s).Rune? && Peek(s).size == 1
    ensures s != [] && PeekAt(s, 1) == Peek(s[1..]) && Reach(s, 1) <= 5
  {
    hide Decode;
  }

  /** The function readQuotedStringQ passes to readWhile, after the opening quote. */
  method QuoteRune(sc: Scanner, st: QuoteState, c: rune, q: rune, v2: bool) returns (next: Option<QuoteState>)
    requires sc.Valid() && Next(Unread(sc), c)
    modifies sc, sc.Live()
    ensures next == QuoteStep(st, c, q, v2, Next(old(Unread(sc))[Peek(old(Unread(sc))).size..], SLASH))
    ensures Consumed(sc, 0) && Unread(sc) == old(Unread(sc))
  {
    hide Decode, Scanner.Valid, At, Unread;
    if st.done {
      return None;
    }
    var escaped, folding := st.escaped, st.folding;
    if folding {
      if Runes.IsWhiteSpace(c) || Runes.IsNewline(c) {
        return Some(st);
      }
      folding := false;
    }
    var done := false;
    if c == BACKSLASH {
      if v2 {
        var slash := LookSecond(sc, SLASH);
        if slash {
          return None;
        }
      }
      escaped := !escaped;
    } else if c == q {
      if escaped {
        escaped := false;
      } else {
        done := true;
      }
    } else if c == ' ' as int || c == '\t' as int {
      if v2 && escaped {
        escaped := false;
        folding := true;
      }
    } else if c == '\n' as int || c == '\r' as int {
      if v2 {
        if !escaped {
          return None;
        }
        escaped := false;
        folding := true;
      }
    } else {
      escaped := false;
    }
    next := Some(QuoteState(escaped, folding, done));
  }

  /** One round of readWhile inside a quoted string. */
  method QuoteRound(sc: Scanner, st: QuoteState, q: rune, v2: bool)
    returns (p: Peeked, next: Option<QuoteState>)
    requires sc.Valid()
    modifies sc, sc.Live()
    ensures p == Peek(old(Unread(sc))) && Consumed(sc, if next.Some? && p.Rune? then p.size else 0)
    ensures if next.Some? then p.Rune? && 1 <= p.size <= |old(Unread(sc))| && Unread(sc) == old(Unread(sc))[p.size..]
                              && QuoteLength(old(Unread(sc)), q, v2, st)
                                 == p.size + QuoteLength(Unread(sc), q, v2, next.value)
            else Unread(sc) == old(Unread(sc)) && QuoteLength(old(Unread(sc)), q, v2, st) == 0
  {
    hide Peek, Scanner.Valid, At, Unread, QuoteStep;
    PeekSizeBound(Unread(sc));
    p := Look(sc);
    next := None;
    if p.Rune? {
      next := QuoteRune(sc, st, p.c, q, v2);
      if next.Some? {
        p := Get(sc);
      }
    }
  }

  /** The rest of a quoted string after its opening quote. */
  method QuoteRun(sc: Scanner, q: rune, v2: bool) returns (stop: Peeked, ghost n: nat)
    requires sc.Valid()
    modifies sc, sc.Live()
    ensures n == QuoteLength(old(Unread(sc)), q, v2, OPENED) && Consumed(sc, n)
    ensures Unread(sc) == old(Unread(sc))[n..] && stop == Peek(Unread(sc))
  {
    hide Peek, Scanner.Valid, At, Unread, QuoteLength;
    var st, more := OPENED, true;
    stop := Bad(AtEnd);
    n := 0;
    ghost var s := Unread(sc);
    while more
      invariant Consumed(sc, n) && n <= |s| && Unread(sc) == s[n..]
      invariant QuoteLength(s, q, v2, OPENED) == n + if more then QuoteLength(Unread(sc), q, v2, st) else 0
      invariant more || stop == Peek(Unread(sc))
      decreases |Unread(sc)|, more
    {
      var next;
      stop, next := QuoteRound(sc, st, q, v2);
      more := next.Some?;
      if more {
        Continued(s, n, stop.size);
        n := n + stop.size;
        st := next.value;
      }
    }
  }

  /** readQuotedStringQ */
  method ReadQuoted(sc: Scanner, q: rune, v2: bool) returns (e: Option<ScanError>, d: Option<Slice>)
    requires sc.Valid()
    modifies sc, sc.Live()
    ensures Read(sc, QuotedScan(old(Unread(sc)), q, v2), e, d)
  {
    hide Peek, Scanner.Valid, At, QuotedScan;
    ghost var c := At(sc);
    Mark(sc);
    e := QuoteMarked(sc, q, v2);
    d := Conclude(sc, e, QuotedScan(c.Rest(), q, v2), c);
  }

  /** The opening quote, which has to be there. */
  method OpenQuote(sc: Scanner, q: rune) returns (e: Option<ScanError>, ghost n: nat)
    requires sc.Valid()
    modifies sc, sc.Live()
    ensures var p := Peek(old(Unread(sc)));
            && e == (if p.Bad? then Some(Inside(p.e)) else if p.c != q then Some(BadCharacter) else None)
            && (e.None? ==> n == p.size)
    ensures e.None? ==> Consumed(sc, n) && n <= |old(Unread(sc))| && Unread(sc) == old(Unread(sc))[n..]
    ensures e.Some? ==> Stopped(sc)
  {
    hide Peek, Scanner.Valid, At, Unread;
    var p := Look(sc);
    if p.Bad? {
      return Some(Inside(p.e)), 0;
    }
    if p.c != q {
      return Some(BadCharacter), 0;
    }
    p := Get(sc);
    e, n := None, p.size;
  }

  lemma QuotedParts(s: Bytes, q: rune, v2: bool)
    ensures var p, r := Peek(s), QuotedScan(s, q, v2);
            if p.Bad? then r == Failed(Inside(p.e)) else if p.c != q then r == Failed(BadCharacter)
            else var m := QuoteLength(s[p.size..], q, v2, OPENED);
                 var stop := Peek(s[p.size..][m..]);
                 r == if stop.Bad? && !stop.e.AtEnd? then Failed(stop.e)
                      else if p.size + m < 2 then Failed(EndOfToken) else Got(p.size + m)
  {
    hide Peek, QuoteLength;
  }

  method QuoteMarked(sc: Scanner, q: rune, v2: bool) returns (e: Option<ScanError>)
    requires sc.Valid() && At(sc).marks != [] && At(sc).marks[|At(sc).marks| - 1] == At(sc).pos
    modifies sc, sc.Live()
    ensures var r := QuotedScan(old(Unread(sc)), q, v2); e == ErrorOf(r) && Followed(sc, r)
  {
    hide Peek, Scanner.Valid, At, Unread, QuoteLength, QuotedScan;
    ghost var s, k, m := Unread(sc), 0, 0;
    e, k := OpenQuote(sc, q);
    QuotedParts(s, q, v2);
    if e.Some? {
      return;
    }
    var stop;
    stop, m := QuoteRun(sc, q, v2);
    var n := SinceMark(sc);
    e := if stop.Bad? && !stop.e.AtEnd? then Some(stop.e) else if n < 2 then Some(EndOfToken) else None;
  }

  // ---------- Multi-line strings ----------

  lemma SeveralStep(s: Bytes, count: nat)
    requires count > 0
    ensures var p := Peek(s);
            && Several(s, count) == (if p.Bad? then Failed(UnexpectedEOF) else Plus(p.size, Several(s[p.size..], count - 1)))
            && (p.Rune? ==> 1 <= p.size <= |s|)
  {}

  /** The opening quotes, already recognised. */
  method GetSeveral(sc: Scanner, count: nat) returns (e: Option<ScanError>)
    requires sc.Valid()
    modifies sc, sc.Live()
    ensures var q := Several(old(Unread(sc)), count); e == ErrorOf(q) && Followed(sc, q)
  {
    hide Peek, Several, Scanner.Valid, At, Unread;
    var i := 0;
    ghost var s, k: nat := Unread(sc), 0;
    while i < count
      invariant i <= count && Consumed(sc, k)
      invariant Several(s, count) == Plus(k, Several(Unread(sc), count - i))
    {
      SeveralStep(Unread(sc), count - i);
      var p := Get(sc);
      if p.Bad? {
        return Some(UnexpectedEOF);
      }
      k := k + p.size;
      i := i + 1;
    }
    NoneLeft(Unread(sc));
    e := None;
  }

  lemma NoneLeft(s: Bytes)
    ensures Several(s, 0) == Got(0)
  {}

  /** Blanks up to the newline that has to follow the opening quotes. */
  method SkipOpeningLine(sc: Scanner) returns (e: Option<ScanError>)
    requires sc.Valid()
    modifies sc, sc.Live()
    ensures var q := OpeningLine(old(Unread(sc))); e == ErrorOf(q) && Followed(sc, q)
  {
    hide Decode, Scanner.Valid, At, Unread;
    ghost var s, k: nat := Unread(sc), 0;
    while true
      invariant Consumed(sc, k)
      invariant OpeningLine(s) == Plus(k, OpeningLine(Unread(sc)))
      decreases |Unread(sc)|
    {
      var p := Look(sc);
      if p.Bad? {
        return Some(UnexpectedEOF);
      }
      if p.c == '\n' as int || p.c == '\r' as int {
        return None;
      }
      if p.c != ' ' as int && p.c != '\t' as int {
        return Some(BadCharacter);
      }
      p := Get(sc);
      k := k + 1;
    }
  }

  /** Whether q comes next, twice: peekTwo after a quote. */
  method LookPair(sc: Scanner, q: rune) returns (b: bool)
    requires sc.Valid() && q < 0x80
    modifies sc`peeked
    ensures b == (Next(Unread(sc), q) && Next(Unread(sc)[1..], q))
    ensures Consumed(sc, 0) && Unread(sc) == old(Unread(sc))
  {
    hide Decode, Scanner.Valid, At, Unread;
    var t := LookTwo(sc);
    b := t.Two? && t.c1 == q && t.c2 == q;
  }

  /** Three quotes if they are there, and then at most h number signs; the first one has been consumed. */
  method CloseMulti(sc: Scanner, q: rune, h: nat) returns (closes: bool, matched: nat)
    requires sc.Valid() && q < 0x80
    modifies sc, sc.Live()
    ensures var t := old(Unread(sc));
            && closes == (Next(t, q) && Next(t[1..], q))
            && matched == (if closes then HashRun(t[2..], h) else 0)
            && Consumed(sc, if closes then 2 + matched else 0)
            && Unread(sc) == t[if closes then 2 + matched else 0..]
  {
    hide Decode, Scanner.Valid, At, Unread;
    ghost var t := Unread(sc);
    matched := 0;
    closes := LookPair(sc, q);
    if closes {
      var p := Get(sc);
      p := Get(sc);
      Continued(t, 1, 1);
      matched := SkipHashes(sc, h);
      Continued(t, 2, matched);
    }
  }

  /** One rune of a multi-line string, an escaped pair, or the quotes that may close it. */
  method MultiStep(sc: Scanner, q: rune, h: nat) returns (e: Option<ScanError>, done: bool, ghost n: nat)
    requires sc.Valid() && q < 0x80 && q != BACKSLASH
    modifies sc, sc.Live()
    ensures if e.Some? then MultiLineContent(old(Unread(sc)), q, h) == Failed(e.value) && Stopped(sc)
            else Consumed(sc, n) && |Unread(sc)| < |old(Unread(sc))|
                 && MultiLineContent(old(Unread(sc)), q, h)
                    == if done then Got(n) else Plus(n, MultiLineContent(Unread(sc), q, h))
  {
    hide Peek, Scanner.Valid, At, Unread;
    PeekSizeBound(Unread(sc));
    var p := Get(sc);
    if p.Bad? {
      return Some(Inside(p.e)), false, 0;
    }
    e, done, n := None, false, p.size;
    if p.c == BACKSLASH && h == 0 {
      var esc := Get(sc);
      if esc.Bad? {
        return Some(UnexpectedEOF), false, 0;
      }
      n := n + esc.size;
    } else if p.c == q {
      var closes, matched := CloseMulti(sc, q, h);
      if closes {
        done := matched == h;
        n := n + 2 + matched;
      }
    }
  }

  method MultiContent(sc: Scanner, q: rune, h: nat) returns (e: Option<ScanError>)
    requires sc.Valid() && q < 0x80 && q != BACKSLASH
    modifies sc, sc.Live()
    ensures var r := MultiLineContent(old(Unread(sc)), q, h); e == ErrorOf(r) && Followed(sc, r)
  {
    hide MultiLineContent, Scanner.Valid, At, Unread;
    e := None;
    var done := false;
    ghost var s, k: nat := Unread(sc), 0;
    while !done
      invariant Consumed(sc, k)
      invariant MultiLineContent(s, q, h) == if done then Got(k) else Plus(k, MultiLineContent(Unread(sc), q, h))
      decreases |Unread(sc)|, !done
    {
      ghost var n;
      e, done, n := MultiStep(sc, q, h);
      if e.Some? {
        return;
      }
      k := k + n;
    }
    e := None;
  }

  method ReadOpening(sc: Scanner) returns (e: Option<ScanError>)
    requires sc.Valid()
    modifies sc, sc.Live()
    ensures var q := Opening(old(Unread(sc))); e == ErrorOf(q) && Followed(sc, q)
  {
    hide Several, OpeningLine, Scanner.Valid, At;
    ghost var c := At(sc);
    e := GetSeveral(sc, 3);
    if e.None? {
      RestPast(c, Several(c.Rest(), 3).n);
      e := SkipOpeningLine(sc);
    }
  }

  /** readMultiLineStringRawNoMark, and readMultiLineExpressionString inside its mark. */
  method MultiUnmarked(sc: Scanner, q: rune, h: nat) returns (e: Option<ScanError>)
    requires sc.Valid() && q < 0x80 && q != BACKSLASH
    modifies sc, sc.Live()
    ensures var r := MultiLine(old(Unread(sc)), q, h); e == ErrorOf(r) && Followed(sc, r)
  {
    hide Opening, MultiLineContent, Scanner.Valid, At;
    ghost var c := At(sc);
    e := ReadOpening(sc);
    if e.None? {
      RestPast(c, Opening(c.Rest()).n);
      e := MultiContent(sc, q, h);
    }
  }

  method ReadMultiLine(sc: Scanner, q: rune) returns (e: Option<ScanError>, d: Option<Slice>)
    requires sc.Valid() && q < 0x80 && q != BACKSLASH
    modifies sc, sc.Live()
    ensures Read(sc, MultiLine(old(Unread(sc)), q, 0), e, d)
  {
    hide Peek, Scanner.Valid, At, MultiLine;
    ghost var c := At(sc);
    Mark(sc);
    e := MultiUnmarked(sc, q, 0);
    d := Conclude(sc, e, MultiLine(c.Rest(), q, 0), c);
  }

  // ---------- Numbers ----------

  method ReadInteger(sc: Scanner) returns (e: Option<ScanError>, d: Option<Slice>)
    requires sc.Valid()
    modifies sc, sc.Live()
    ensures Read(sc, Integer(old(Unread(sc))), e, d)
  {
    e, d := ReadWhile(sc, Digits(), 1);
  }

  /** readSignedInteger */
  method ReadSigned(sc: Scanner) returns (e: Option<ScanError>, d: Option<Slice>)
    requires sc.Valid()
    modifies sc, sc.Live()
    ensures Read(sc, SignedInteger(old(Unread(sc))), e, d)
  {
    hide Peek, Scanner.Valid, At, SignedInteger;
    ghost var c := At(sc);
    Mark(sc);
    e := SignedMarked(sc);
    d := Conclude(sc, e, SignedInteger(c.Rest()), c);
  }

  method SignedMarked(sc: Scanner) returns (e: Option<ScanError>)
    requires sc.Valid()
    modifies sc, sc.Live()
    ensures var q := SignedInteger(old(Unread(sc))); e == ErrorOf(q) && Followed(sc, q)
  {
    hide Decode, Scanner.Valid, At, Unread, Integer;
    var p := Look(sc);
    if p.Bad? {
      return Some(p.e);
    }
    if IsSign(p.c) {
      p := Get(sc);
    }
    var d;
    e, d := ReadInteger(sc);
  }

  method ReadFraction(sc: Scanner) returns (e: Option<ScanError>)
    requires sc.Valid()
    modifies sc, sc.Live()
    ensures var q := Fraction(old(Unread(sc))); e == ErrorOf(q) && Followed(sc, q)
  {
    hide Decode, Scanner.Valid, At, Unread, Integer;
    e := None;
    var dot := Accept(sc, '.' as int);
    if dot {
      var d;
      e, d := ReadInteger(sc);
    }
  }

  method ReadExponent(sc: Scanner) returns (e: Option<ScanError>)
    requires sc.Valid()
    modifies sc, sc.Live()
    ensures var q := Exponent(old(Unread(sc))); e == ErrorOf(q) && Followed(sc, q)
  {
    hide Decode, Scanner.Valid, At, Unread, SignedInteger;
    e := None;
    var found := Accept(sc, 'e' as int);
    if !found {
      found := Accept(sc, 'E' as int);
    }
    if found {
      var d;
      e, d := ReadSigned(sc);
    }
  }

  /** readDecimal */
  method ReadDecimal(sc: Scanner) returns (e: Option<ScanError>, d: Option<Slice>)
    requires sc.Valid()
    modifies sc, sc.Live()
    ensures Read(sc, DecimalNumber(old(Unread(sc))), e, d)
  {
    hide Peek, Scanner.Valid, At, DecimalNumber;
    ghost var c := At(sc);
    Mark(sc);
    e := DecimalMarked(sc);
    d := Conclude(sc, e, DecimalNumber(c.Rest()), c);
  }

  method ReadMantissa(sc: Scanner) returns (e: Option<ScanError>)
    requires sc.Valid()
    modifies sc, sc.Live()
    ensures var q := Mantissa(old(Unread(sc))); e == ErrorOf(q) && Followed(sc, q)
  {
    hide Peek, Scanner.Valid, At, SignedInteger, Fraction;
    ghost var c := At(sc);
    var d;
    e, d := ReadSigned(sc);
    if e.None? {
      RestPast(c, SignedInteger(c.Rest()).n);
      e := ReadFraction(sc);
    }
  }

  method ReadNumeral(sc: Scanner) returns (e: Option<ScanError>)
    requires sc.Valid()
    modifies sc, sc.Live()
    ensures var q := Numeral(old(Unread(sc))); e == ErrorOf(q) && Followed(sc, q)
  {
    hide Peek, Scanner.Valid, At, Mantissa, Exponent;
    ghost var c := At(sc);
    e := ReadMantissa(sc);
    if e.None? {
      RestPast(c, Mantissa(c.Rest()).n);
      e := ReadExponent(sc);
    }
  }

  method DecimalMarked(sc: Scanner) returns (e: Option<ScanError>)
    requires sc.Valid()
    modifies sc, sc.Live()
    ensures var q := DecimalNumber(old(Unread(sc))); e == ErrorOf(q) && Followed(sc, q)
  {
    hide Peek, Scanner.Valid, At, Numeral, Runes.IsSeparator;
    ghost var c := At(sc);
    e := ReadNumeral(sc);
    if e.None? {
      RestPast(c, Numeral(c.Rest()).n);
      e := Separation(sc);
    }
  }

  /** What follows a number has to be a separator or the end. */
  method Separation(sc: Scanner) returns (e: Option<ScanError>)
    requires sc.Valid()
    modifies sc`peeked
    ensures var p := Peek(Unread(sc)); e == if p.Rune? && !Runes.IsSeparator(p.c) then Some(BadCharacter) else None
    ensures Consumed(sc, 0)
  {
    hide Peek, Scanner.Valid, At, Unread, Runes.IsSeparator;
    var p := Look(sc);
    e := if p.Rune? && !Runes.IsSeparator(p.c) then Some(BadCharacter) else None;
  }

  /** readNumericBase */
  method ReadBased(sc: Scanner, b: Radix) returns (e: Option<ScanError>, d: Option<Slice>)
    requires sc.Valid()
    modifies sc, sc.Live()
    ensures Read(sc, NumericBase(old(Unread(sc)), b), e, d)
  {
    hide Peek, Scanner.Valid, At, While;
    ghost var c := At(sc);
    e, d := ReadWhile(sc, Based(b), 3);
    if e.Some? {
      return;
    }
    RestPast(c, While(c.Rest(), Based(b), 3).n);
    var literal := d.value.Bytes();
    if literal[2] == UNDERSCORE {
      e := Some(BadCharacter);
      return;
    }
    var p := Look(sc);
    if p.Rune? && !Runes.IsWhiteSpace(p.c) && !Runes.IsNewline(p.c) {
      e := Some(BadCharacter);
    }
  }

  // ---------- Identifiers ----------

  /** What a reader that also tells the token's kind promises. */
  twostate predicate ReadToken(sc: Scanner, l: Lexeme, id: TokenID, new e: Option<ScanError>, new d: Option<Slice>)
    reads sc, sc.Repr(), if d.Some? then {d.value.a} else {}
  {
    if l.Lexeme? then e.None? && id == l.id && Consumed(sc, l.n) && Handed(sc, l.n, d)
    else e == Some(l.e) && Stopped(sc)
  }

  method ReadBareRest(sc: Scanner, v2: bool) returns (id: TokenID, e: Option<ScanError>, d: Option<Slice>)
    requires sc.Valid()
    modifies sc, sc.Live()
    ensures ReadToken(sc, BareRest(old(Unread(sc)), v2), id, e, d)
  {
    hide Peek, Scanner.Valid, At, Unread, While, Reserved, BareKind;
    id := Unknown;
    e, d := ReadWhile(sc, IdentifierChars(v2), 1);
    if e.Some? {
      return;
    }
    var literal := d.value.Bytes();
    if v2 && Reserved(literal) {
      e := Some(BadCharacter);
      return;
    }
    id := BareKind(literal);
  }

  /** readBareIdentifier */
  method ReadBare(sc: Scanner, v2: bool) returns (id: TokenID, e: Option<ScanError>, d: Option<Slice>)
    requires sc.Valid()
    modifies sc, sc.Live()
    ensures ReadToken(sc, Bare(old(Unread(sc)), v2), id, e, d)
  {
    hide Decode, Scanner.Valid, At, Unread, While, BareRest;
    id, d := Unknown, None;
    var p := Look(sc);
    if p.Bad? {
      e := Some(Inside(p.e));
      return;
    }
    if IsSign(p.c) {
      var t := LookTwo(sc);
      if t.BadTwo? {
        if t.e.AtEnd? {
          e, d := ReadWhile(sc, Signs(), 1);
          id := BareIdentifier;
        } else {
          e := Some(t.e);
        }
        return;
      }
      if Runes.IsDigit(t.c2) {
        e := Some(BadCharacter);
        return;
      }
    } else if !Runes.IsIdentifierChar(p.c, true, v2) {
      e := Some(BadCharacter);
      return;
    }
    id, e, d := ReadBareRest(sc, v2);
  }

  /** A string between quotes, or between three of them. */
  method ReadQuotes(sc: Scanner, q: rune, v2: bool) returns (e: Option<ScanError>, d: Option<Slice>)
    requires sc.Valid() && q < 0x80 && q != BACKSLASH
    modifies sc, sc.Live()
    ensures Read(sc, Quote(old(Unread(sc)), q, v2), e, d)
  {
    hide Peek, Scanner.Valid, At, Unread, MultiLine, QuotedScan;
    var triple := false;
    if v2 || q == Tokenize.BACKTICK {
      triple := LookThree(sc, q);
    }
    if triple {
      e, d := ReadMultiLine(sc, q);
    } else {
      e, d := ReadQuoted(sc, q, v2);
    }
  }

  /** A version 1 raw string begins with the letter r and a number sign or quote. */
  method LookRaw(sc: Scanner) returns (b: bool)
    requires sc.Valid() && Next(Unread(sc), 'r' as int)
    modifies sc`peeked
    ensures b == (Next(Unread(sc)[1..], HASH) || Next(Unread(sc)[1..], QUOTE))
    ensures Consumed(sc, 0) && Unread(sc) == old(Unread(sc))
  {
    hide Decode, Scanner.Valid, At, Unread;
    var t := LookTwo(sc);
    b := t.Two? && (t.c2 == HASH || t.c2 == QUOTE);
  }

  /** The last part of readIdentifier: no string, so a bare identifier. */
  method ReadPlain(sc: Scanner, v2: bool) returns (id: TokenID, e: Option<ScanError>, d: Option<Slice>)
    requires sc.Valid() && Peek(Unread(sc)).Rune?
    modifies sc, sc.Live()
    ensures ReadToken(sc, Bare(old(Unread(sc)), v2), id, e, d)
  {
    hide Decode, Scanner.Valid, At, Unread, BareRest, While, Runes.IsIdentifierChar, IsSign;
    var p := Look(sc);
    var t := LookTwo(sc);
    if t.Two? && !Runes.IsIdentifierChar(p.c, true, v2) && !(p.c == '-' as int && !Runes.IsDigit(t.c2)) {
      SignsBegin(p.c, v2);
      return Unknown, Some(BadCharacter), None;
    }
    id, e, d := ReadBare(sc, v2);
  }

  lemma SignsBegin(c: rune, v2: bool)
    ensures IsSign(c) ==> Runes.IsIdentifierChar(c, true, v2)
  {}

  /** readIdentifier */
  method ReadIdentifier(sc: Scanner, v2: bool) returns (id: TokenID, e: Option<ScanError>, d: Option<Slice>)
    requires sc.Valid()
    modifies sc, sc.Live()
    ensures ReadToken(sc, Identifier(old(Unread(sc)), v2), id, e, d)
  {
    hide Decode, Scanner.Valid, At, Unread, Bare, Quote, RawScan;
    id, d := Unknown, None;
    var p := Look(sc);
    if p.Bad? {
      e := Some(p.e);
      return;
    }
    if p.c <= 0x20 {
      e := Some(BadCharacter);
      return;
    }
    if p.c == 'r' as int && !v2 {
      var raw := LookRaw(sc);
      if raw {
        e, d := ReadRawString(sc, v2);
        id := RawString;
        return;
      }
    } else if p.c == QUOTE {
      e, d := ReadQuotes(sc, QUOTE, v2);
      id := QuotedString;
      return;
    } else if p.c == Tokenize.BACKTICK {
      e, d := ReadQuotes(sc, Tokenize.BACKTICK, v2);
      id := ExpressionString;
      return;
    }
    id, e, d := ReadPlain(sc, v2);
  }

  // ---------- Number sign tokens ----------

  method ReadWord(sc: Scanner, w: Bytes) returns (e: Option<ScanError>)
    requires sc.Valid() && forall i | 0 <= i < |w| :: w[i] < 0x80
    modifies sc, sc.Live()
    ensures var q := Word(old(Unread(sc)), w); e == ErrorOf(q) && Followed(sc, q)
  {
    hide Peek, Scanner.Valid, At, Unread;
    var i := 0;
    ghost var s, k: nat := Unread(sc), 0;
    while i < |w|
      invariant i <= |w| && Consumed(sc, k)
      invariant Word(s, w) == Plus(k, Word(Unread(sc), w[i..]))
    {
      assert w[i..][1..] == w[i + 1..];
      PeekSizeBound(Unread(sc));
      var p := Get(sc);
      if p.Bad? {
        return Some(p.e);
      }
      if p.c != w[i] {
        return Some(BadCharacter);
      }
      k := k + p.size;
      i := i + 1;
    }
    e := None;
  }

  method CountHashes(sc: Scanner) returns (n: nat)
    requires sc.Valid()
    modifies sc, sc.Live()
    ensures n == Hashes(old(Unread(sc))) && Consumed(sc, n) && Unread(sc) == old(Unread(sc))[n..]
  {
    hide Peek, Scanner.Valid, At, Unread;
    n := 0;
    var more := true;
    ghost var s := Unread(sc);
    while more
      invariant Consumed(sc, n) && n <= |s| && Unread(sc) == s[n..]
      invariant Hashes(s) == n + if more then Hashes(Unread(sc)) else 0
      decreases |Unread(sc)|, more
    {
      HashIsByte(Unread(sc));
      more := Accept(sc, HASH);
      if more {
        Continued(s, n, 1);
        n := n + 1;
      }
    }
  }

  /** The string after h number signs; triple tells which kind it is. */
  method ReadHashString(sc: Scanner, h: nat) returns (triple: bool, e: Option<ScanError>)
    requires sc.Valid()
    modifies sc, sc.Live()
    ensures triple == Thrice(old(Unread(sc)), QUOTE)
    ensures var q := HashString(old(Unread(sc)), h); e == ErrorOf(q) && Followed(sc, q)
  {
    hide Decode, Scanner.Valid, At, Unread, MultiLine, RawContent;
    triple := LookThree(sc, QUOTE);
    if triple {
      e := MultiUnmarked(sc, QUOTE, h);
      return;
    }
    var p := Look(sc);
    if p.Bad? {
      return triple, Some(UnexpectedEOF);
    }
    if p.c != QUOTE {
      return triple, Some(BadCharacter);
    }
    p := Get(sc);
    e := ReadRawContent(sc, h, true);
  }

  /** A lexeme's outcome. */
  function ScanOf(l: Lexeme): Scan {
    if l.Lexeme? then Got(l.n) else Failed(l.e)
  }

  method ReadHashes(sc: Scanner) returns (id: TokenID, e: Option<ScanError>)
    requires sc.Valid()
    modifies sc, sc.Live()
    ensures var l := HashStringToken(old(Unread(sc)));
            e == ErrorOf(ScanOf(l)) && Followed(sc, ScanOf(l)) && (e.None? ==> id == l.id)
  {
    hide Peek, Scanner.Valid, At, Unread, HashString, Thrice;
    var k := CountHashes(sc);
    var triple;
    triple, e := ReadHashString(sc, k + 1);
    id := if triple then QuotedString else RawString;
  }

  /** The keywords after the number sign. */
  method ReadKeyword(sc: Scanner, p: Peeked) returns (id: TokenID, e: Option<ScanError>)
    requires sc.Valid() && p.Rune? && p == Peek(Unread(sc))
    modifies sc, sc.Live()
    ensures var l := KeywordToken(old(Unread(sc)));
            e == ErrorOf(ScanOf(l)) && Followed(sc, ScanOf(l)) && (e.None? ==> id == l.id)
  {
    hide Decode, Scanner.Valid, At, Unread, Word;
    id := Keyword;
    if p.c == 't' as int {
      e := ReadWord(sc, Ascii("true"));
      id := Boolean;
    } else if p.c == 'f' as int {
      e := ReadWord(sc, Ascii("false"));
      id := Boolean;
    } else if p.c == 'n' as int {
      var t := LookTwo(sc);
      if t.BadTwo? {
        e := Some(t.e);
      } else if t.c2 == 'u' as int {
        e := ReadWord(sc, Ascii("null"));
        id := Null;
      } else {
        e := ReadWord(sc, Ascii("nan"));
      }
    } else if p.c == 'i' as int {
      e := ReadWord(sc, Ascii("inf"));
    } else if p.c == '-' as int {
      e := ReadWord(sc, Ascii("-inf"));
    } else {
      e := Some(BadCharacter);
    }
  }

  method HashMarked(sc: Scanner) returns (id: TokenID, e: Option<ScanError>)
    requires sc.Valid() && Next(Unread(sc), HASH)
    modifies sc, sc.Live()
    ensures var l := HashToken(old(Unread(sc)));
            e == ErrorOf(ScanOf(l)) && Followed(sc, ScanOf(l)) && (e.None? ==> id == l.id)
  {
    hide Decode, Scanner.Valid, At, Unread, HashStringToken, KeywordToken;
    var p := Get(sc);
    p := Look(sc);
    if p.Bad? {
      return Unknown, Some(Inside(p.e));
    }
    if p.c == QUOTE || p.c == HASH {
      id, e := ReadHashes(sc);
    } else {
      id, e := ReadKeyword(sc, p);
    }
  }

  /** readHashToken */
  method ReadHash(sc: Scanner) returns (id: TokenID, e: Option<ScanError>, d: Option<Slice>)
    requires sc.Valid() && Next(Unread(sc), HASH)
    modifies sc, sc.Live()
    ensures ReadToken(sc, HashToken(old(Unread(sc))), id, e, d)
  {
    hide Peek, Scanner.Valid, At, HashRest;
    ghost var c := At(sc);
    Mark(sc);
    id, e := HashMarked(sc);
    d := Conclude(sc, e, ScanOf(HashToken(c.Rest())), c);
  }
}
