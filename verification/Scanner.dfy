/**
  The scanner's buffer: a window that slides over a stream delivered in arbitrary pieces, with peeked
  runes and a stack of marks.  Every operation is stated about the whole stream and a position in it,
  so that it says the same of a scanner over one big slice.
 */
module Scanner {
  import opened Wrappers
  import opened Utf8
  import opened Lookahead
  import Runes

  const UTF_MAX: nat := 4
  /** The least capacity of a buffer for which the lookahead is guaranteed. */
  const LEAST_CAPACITY: nat := 16

  function Concat(chunks: seq<Bytes>): Bytes {
    if chunks == [] then [] else chunks[0] + Concat(chunks[1..])
  }

  /** A finite stream that arrives in pieces, the end being reported with the last one or after it. */
  class Reader {
    var chunks: seq<Bytes>
    const eager: bool

    ghost function Rest(): Bytes
      reads this
    {
      Concat(chunks)
    }

    constructor (chunks: seq<Bytes>, eager: bool)
      ensures Rest() == Concat(chunks)
    {
      this.chunks, this.eager := chunks, eager;
    }

    /** io.Reader.Read into p[from..] */
    method Read(p: array<byte>, from: nat) returns (n: nat, eof: bool)
      requires from < p.Length
      modifies this`chunks, p
      ensures n <= p.Length - from
      ensures Delivered(old(p[..]), p[..], from, n, old(Rest()), Rest())
      ensures eof ==> Rest() == []
      ensures |chunks| <= |old(chunks)|
      ensures eof || |chunks| < |old(chunks)| || n == p.Length - from
    {
      if |chunks| == 0 {
        return 0, true;
      }
      var c := chunks[0];
      n := if |c| <= p.Length - from then |c| else p.Length - from;
      forall i | 0 <= i < n {
        p[from + i] := c[i];
      }
      assert p[from..from + n] == c[..n];
      if n == |c| {
        chunks := chunks[1..];
        assert c[..n] == c;
      } else {
        chunks := [c[n..]] + chunks[1..];
        assert chunks[1..] == old(chunks)[1..];
        assert c[..n] + c[n..] == c;
      }
      eof := eager && |chunks| == 0;
    }
  }

  /** n bytes went from the front of s, leaving s', into the buffer at from; nothing before changed. */
  ghost predicate Delivered(before: Bytes, after: Bytes, from: nat, n: nat, s: Bytes, s': Bytes) {
    && from + n <= |after| == |before| && after[..from] == before[..from]
    && s == after[from..from + n] + s'
  }

  lemma DeliveredTwice(b0: Bytes, b1: Bytes, b2: Bytes, from: nat, n: nat, m: nat, s0: Bytes, s1: Bytes, s2: Bytes)
    requires Delivered(b0, b1, from, n, s0, s1) && Delivered(b1, b2, from + n, m, s1, s2)
    ensures Delivered(b0, b2, from, n + m, s0, s2)
  {
    var k, k' := from + n, from + n + m;
    assert b2[..k][..from] == b1[..k][..from];
    assert b2[from..k] == b2[..k][from..] == b1[..k][from..] == b1[from..k];
    assert b2[from..k'] == b2[from..k] + b2[k..k'];
  }

  lemma NothingDelivered(b: Bytes, from: nat, s: Bytes)
    requires from <= |b|
    ensures Delivered(b, b, from, 0, s, s)
  {}

  lemma StreamGoesOn(before: Bytes, after: Bytes, s: Bytes, base: nat, from: nat, n: nat, rest: Bytes)
    requires base + from <= |s| && from <= |before| && before[..from] == s[base..base + from]
    requires Delivered(before, after, from, n, s[base + from..], rest)
    ensures base + from + n <= |s| && after[..from + n] == s[base..base + from + n]
    ensures rest == s[base + from + n..]
  {
    var t := s[base + from..];
    assert t[..n] == after[from..from + n] && t[n..] == rest;
    assert after[..from + n] == after[..from] + after[from..from + n];
    assert s[base..base + from + n] == s[base..base + from] + t[..n];
  }

  /** io.ReadFull into p[from..]; short is io.EOF or io.ErrUnexpectedEOF. */
  method ReadFull(r: Reader, p: array<byte>, from: nat) returns (n: nat, short: bool)
    requires from <= p.Length
    modifies r`chunks, p
    ensures from + n <= p.Length
    ensures Delivered(old(p[..]), p[..], from, n, old(r.Rest()), r.Rest())
    ensures short == (from + n < p.Length) && (short ==> r.Rest() == [])
  {
    hide Reader.Rest, Delivered;
    n := 0;
    var eof := false;
    NothingDelivered(p[..], from, r.Rest());
    while from + n < p.Length && !eof
      invariant from + n <= p.Length
      invariant Delivered(old(p[..]), p[..], from, n, old(r.Rest()), r.Rest())
      invariant eof ==> r.Rest() == []
      decreases if eof then 0 else 1, |r.chunks|, p.Length - from - n
    {
      ghost var before, rest := p[..], r.Rest();
      var nn;
      nn, eof := r.Read(p, from + n);
      DeliveredTwice(old(p[..]), before, p[..], from, n, nn, old(r.Rest()), rest, r.Rest());
      n := n + nn;
    }
    short := from + n < p.Length;
  }

  /** The marks do not decrease and none lies beyond the next unread byte. */
  ghost predicate Ordered(marks: seq<nat>, offset: nat) {
    && (forall i | 0 <= i < |marks| :: marks[i] <= offset)
    && (forall i, j | 0 <= i < j < |marks| :: marks[i] <= marks[j])
  }

  lemma OldestMark(marks: seq<nat>, offset: nat)
    requires marks != [] && Ordered(marks, offset)
    ensures marks[0] <= offset && forall i | 0 <= i < |marks| :: marks[0] <= marks[i]
  {}

  function Raised(marks: seq<nat>, d: nat): (m: seq<nat>)
    ensures |m| == |marks| && (marks != [] ==> m[|m| - 1] == d + marks[|m| - 1])
  {
    seq(|marks|, i requires 0 <= i < |marks| => d + marks[i])
  }

  function Lowered(marks: seq<nat>, d: nat): seq<nat>
    requires forall i | 0 <= i < |marks| :: d <= marks[i]
  {
    seq(|marks|, i requires 0 <= i < |marks| => marks[i] - d)
  }

  lemma LoweredMarks(marks: seq<nat>, d: nat, offset: nat, base: nat)
    requires (forall i | 0 <= i < |marks| :: d <= marks[i]) && d <= offset && Ordered(marks, offset)
    ensures Ordered(Lowered(marks, d), offset - d)
    ensures Raised(Lowered(marks, d), base + d) == Raised(marks, base)
  {}

  lemma SlideWindow(raw: Bytes, s: Bytes, base: nat, from: nat)
    requires from <= |raw| && base + |raw| <= |s| && raw == s[base..base + |raw|]
    ensures raw[from..] == s[base + from..base + |raw|]
  {}

  /** copy(b, b[from..to]) */
  method MoveDown(b: array<byte>, from: nat, to: nat)
    requires from <= to <= b.Length
    modifies b
    ensures b[..to - from] == old(b[from..to])
  {
    forall i | 0 <= i < to - from {
      b[i] := b[from + i];
    }
  }

  /** Bytes handed out: part of an array. */
  datatype Slice = Slice(a: array<byte>, lo: nat, hi: nat) {
    predicate InRange() { lo <= hi <= a.Length }

    function Bytes(): Bytes
      requires InRange()
      reads a
    {
      a[lo..hi]
    }
  }

  class Scanner {
    /** Scanner.raw is buf[..rawLen], and Scanner.input is buf[offset..rawLen]. */
    var buf: array<byte>
    var rawLen: nat
    var offset: nat
    var len: nat
    var peeked: seq<Peeked>
    var line: int
    var column: int
    var marks: seq<nat>
    var r: Reader?
    var err: Option<ScanError>

    /** The whole input. */
    ghost const stream: Bytes
    /** The position in the input of buf[0]. */
    ghost var base: nat

    /** The objects the scanner still writes to: none once the reader is exhausted. */
    ghost function Live(): set<object>
      reads this`r, this`buf
    {
      if r == null then {}
      else
        var live: Reader := r;
        {live, buf}
    }

    ghost function Repr(): set<object>
      reads this
    {
      {this, buf} + Live()
    }

    ghost predicate WindowOk()
      reads this`buf, this`rawLen, this`offset, this`len, this`base, this`r, buf, Live()
    {
      && offset <= rawLen <= buf.Length && len == rawLen - offset
      && base + rawLen <= |stream| && buf[..rawLen] == stream[base..base + rawLen]
      && (r == null ==> base + rawLen == |stream|)
      && (r != null ==> r.Rest() == stream[base + rawLen..] && buf.Length >= LEAST_CAPACITY)
    }

    ghost predicate MarksOk()
      reads this`marks, this`offset
    {
      Ordered(marks, offset)
    }

    /** The position in the input of the next unread byte. */
    ghost function Pos(): nat
      reads this`base, this`offset
    {
      base + offset
    }

    ghost function Rest(): Bytes
      requires WindowOk()
      reads this`buf, this`rawLen, this`offset, this`len, this`base, this`r, buf, Live()
    {
      stream[Pos()..]
    }

    /** The part of the rest that is in the buffer. */
    ghost function Window(): Bytes
      requires WindowOk()
      reads this`buf, this`rawLen, this`offset, this`len, this`base, this`r, buf, Live()
    {
      buf[offset..rawLen]
    }

    ghost predicate PeeksOk()
      requires WindowOk()
      reads this`peeked, this`buf, this`rawLen, this`offset, this`len, this`base, this`r, buf, Live()
    {
      Ahead(Rest(), peeked) && Size(peeked) <= len
    }

    /** The reader is exhausted, or an ASCII byte and the longest rune are in sight. */
    ghost predicate Sighted()
      reads this`r, this`len
    {
      r == null || len >= UTF_MAX + 1
    }

    ghost predicate Valid()
      reads Repr()
    {
      WindowOk() && MarksOk() && PeeksOk() && Sighted()
    }

    /** The marked positions in the input, the newest last. */
    ghost function Marks(): (m: seq<nat>)
      reads this`marks, this`base
      ensures |m| == |marks|
    {
      Raised(marks, base)
    }

    /** NewSlice: the whole input is in the buffer. */
    constructor NewSlice(input: array<byte>)
      ensures Valid() && r == null && buf == input && stream == input[..]
      ensures Pos() == 0 && marks == [] && peeked == [] && err == None
    {
      buf, rawLen, offset, len := input, input.Length, 0, input.Length;
      peeked, marks, line, column := [], [], 0, 0;
      r, err := null, None;
      base, stream := 0, input[..];
    }

    /** NewBuffer: the buffer is filled once; a reader with nothing more to give is not kept. */
    constructor NewBuffer(reader: Reader, b: array<byte>)
      requires b.Length >= LEAST_CAPACITY
      modifies reader`chunks, b
      ensures Valid() && buf == b && (r == null || r == reader) && stream == old(reader.Rest())
      ensures Pos() == 0 && marks == [] && peeked == []
      ensures err == if stream == [] then Some(AtEnd) else None
    {
      stream := reader.Rest();
      var nr, short := ReadFull(reader, b, 0);
      buf, rawLen, offset, len := b, nr, 0, nr;
      peeked, marks, line, column := [], [], 0, 0;
      r := if short then null else reader;
      err := if short && nr == 0 then Some(AtEnd) else None;
      base := 0;
      new;
      assert stream == b[0..nr] + reader.Rest();
      assert buf[..rawLen] == stream[base..base + rawLen];
    }

    // ---------- Refilling ----------

    /** What refilling leaves as it is. */
    twostate predicate Kept()
      reads Repr()
    {
      && WindowOk() && MarksOk() && Pos() == old(Pos()) && Marks() == old(Marks())
      && line == old(line) && column == old(column) && err == old(err)
    }

    method ShiftMarks(from: nat)
      requires forall i | 0 <= i < |marks| :: from <= marks[i]
      modifies this`marks
      ensures marks == Lowered(old(marks), from)
    {
      var shifted: seq<nat> := [];
      for k := 0 to |marks|
        invariant |shifted| == k && marks == old(marks)
        invariant shifted == Lowered(marks[..k], from)
      {
        shifted := shifted + [marks[k] - from];
      }
      assert marks[..|marks|] == marks;
      marks := shifted;
    }

    /** The retained bytes move to the front of the buffer. */
    method Slide(from: nat)
      requires WindowOk() && MarksOk() && r != null && from <= offset
      requires forall i | 0 <= i < |marks| :: from <= marks[i]
      modifies this`rawLen, this`offset, this`marks, this`base, buf
      ensures Kept() && base == old(base) + from && rawLen == old(rawLen) - from
    {
      hide Ordered, Lowered, Raised, Reader.Rest;
      LoweredMarks(marks, from, offset, base);
      SlideWindow(buf[..rawLen], stream, base, from);
      assert buf[..rawLen][from..] == buf[from..rawLen];
      MoveDown(buf, from, rawLen);
      rawLen := rawLen - from;
      offset := offset - from;
      base := base + from;
      ShiftMarks(from);
    }

    /** A buffer of twice the capacity with the same contents. */
    method Enlarge()
      requires WindowOk() && MarksOk() && r != null
      modifies this`buf
      ensures Kept() && fresh(buf) && buf.Length == 2 * old(buf.Length)
      ensures base == old(base) && rawLen == old(rawLen)
    {
      ghost var kept := buf[..rawLen];
      var b := new byte[2 * buf.Length];
      forall i | 0 <= i < buf.Length {
        b[i] := buf[i];
      }
      buf := b;
      assert buf[..rawLen] == kept;
    }

    /** The rest of the buffer is filled from the reader, which is dropped at its end. */
    method Fill()
      requires WindowOk() && MarksOk() && r != null
      modifies this`rawLen, this`len, this`r, r`chunks, buf
      ensures Kept() && buf == old(buf) && base == old(base) && len >= old(len)
      ensures r == null || (r == old(r) && rawLen == buf.Length)
    {
      hide Delivered, Reader.Rest, Ordered, Raised;
      ghost var before, reader := buf[..], r;
      assert before[..rawLen] == buf[..rawLen];
      var nr, short := ReadFull(r, buf, rawLen);
      StreamGoesOn(before, buf[..], stream, base, rawLen, nr, reader.Rest());
      if short {
        r := null;
      }
      len := len + nr;
      rawLen := rawLen + nr;
    }

    /** What every operation keeps: only the window may move, and never back to a live reader. */
    twostate predicate Steady()
      reads Repr()
    {
      && WindowOk() && MarksOk() && PeeksOk() && err == old(err)
      && (old(r) == null ==> base == old(base))
      && (r == null || r == old(r)) && (buf == old(buf) || (old(r) != null && fresh(buf)))
    }

    /** The bytes a refill has to keep: from the oldest mark, or else the unread ones. */
    ghost function Retained(): nat
      reads this
    {
      if marks == [] || marks[0] > rawLen then len else rawLen - marks[0]
    }

    /**
      refill: with a reader left, the buffer is full afterwards and more than the lookahead is in sight;
      it is enlarged only when the retained bytes crowd it.
     */
    method Refill()
      requires WindowOk() && MarksOk() && PeeksOk()
      modifies this, Live()
      ensures Steady() && Kept() && peeked == old(peeked) && len >= old(len)
      ensures old(Sighted()) ==> r == null || len > 2 * UTF_MAX
      ensures buf != old(buf) ==> 3 * buf.Length < 8 * old(Retained())
    {
      hide Ahead, Size, Reader.Rest, Raised;
      if r == null {
        return;
      }
      var unread := len;
      if |marks| > 0 {
        OldestMark(marks, offset);
        Slide(marks[0]);
        if rawLen > buf.Length * 3 / 4 {
          Enlarge();
        }
      } else {
        Slide(offset);
      }
      Fill();
    }

    // ---------- Runes ----------

    /** peekSize */
    method PeekSize() returns (p: Peeked)
      requires Valid()
      modifies this`peeked
      ensures Valid() && p == Peek(Rest()) && (p.Rune? ==> p.size <= len)
    {
      hide Decode, Ordered, Reader.Rest;
      if |peeked| == 0 {
        WindowOfRest(0);
        WindowExact(Window(), Rest());
        p := Peek(buf[offset..rawLen]);
        if p.Bad? {
          return;
        }
        AheadOne(Rest(), p);
        peeked := [p];
      }
      p := peeked[0];
      SizeFirst(peeked);
    }

    /** The window, less the first k bytes, is the beginning of the rest, less the first k bytes. */
    lemma WindowOfRest(k: nat)
      requires WindowOk() && k <= len
      ensures buf[offset + k..rawLen] <= Rest()[k..]
      ensures r == null ==> buf[offset + k..rawLen] == Rest()[k..]
    {
      assert buf[offset + k..rawLen] == buf[..rawLen][offset + k..];
      assert Rest()[k..] == stream[base + offset + k..];
    }

    /** Decodes one rune beyond those peeked already; n is the index of the rune that is wanted. */
    method DecodeAhead(peekedSize: nat, ghost n: nat) returns (p: Peeked)
      requires Valid() && peekedSize == Size(peeked) && |peeked| <= n
      modifies this`peeked
      ensures Valid()
      ensures p.Rune? ==> peeked == old(peeked) + [p] && Size(peeked) == peekedSize + p.size
      ensures p.Bad? ==> r == null || Reach(Rest(), n) <= len ==> PeekAt(Rest(), n) == p
      ensures p.Bad? ==> PeekAt(Rest(), n).Rune? ==> Span(Rest(), n) > len
    {
      hide Decode, Ordered, Reader.Rest, Peek, PeekAt, Reach, Span, Ahead;
      WindowOfRest(peekedSize);
      p := Peek(buf[offset + peekedSize..rawLen]);
      if p.Bad? {
        NotSeen(Rest(), buf[offset + peekedSize..rawLen], peeked, n, len, r == null);
      } else {
        WindowSound(buf[offset + peekedSize..rawLen], Rest()[peekedSize..]);
        AheadSnoc(Rest(), peeked, p);
        SizeSnoc(peeked, p);
        peeked := peeked + [p];
      }
    }

    /** peekAtSize: certain about whatever is in sight, and about everything once the reader is exhausted. */
    method PeekAtSize(n: nat) returns (p: Peeked)
      requires Valid()
      modifies this, Live()
      ensures Steady() && Kept() && Sighted() && len >= old(len)
      ensures p.Rune? ==> p == PeekAt(Rest(), n)
      ensures r == null || Reach(Rest(), n) <= len ==> p == PeekAt(Rest(), n)
      ensures PeekAt(Rest(), n).Rune? && Span(Rest(), n) <= len ==> p == PeekAt(Rest(), n)
    {
      hide Decode, Ordered, Reader.Rest, PeekAt, Reach, Span, Ahead, Size, Peek, Raised;
      var peekedSize := SizeOfPeeked();
      while |peeked| <= n
        invariant Steady() && Kept() && Sighted() && len >= old(len)
        invariant peekedSize == Size(peeked)
        decreases n - |peeked|
      {
        p := RefillAndDecode(peekedSize, n);
        if p.Bad? {
          return;
        }
        peekedSize := peekedSize + p.size;
      }
      p := Seen(n);
    }

    /** One rune further ahead, after a refill if all that is in sight has been peeked. */
    method RefillAndDecode(peekedSize: nat, ghost n: nat) returns (p: Peeked)
      requires Valid() && peekedSize == Size(peeked) && |peeked| <= n
      modifies this, Live()
      ensures Steady() && Kept() && Sighted() && len >= old(len)
      ensures p.Rune? ==> |peeked| == |old(peeked)| + 1 && Size(peeked) == peekedSize + p.size
      ensures p.Bad? ==> r == null || Reach(Rest(), n) <= len ==> PeekAt(Rest(), n) == p
      ensures p.Bad? ==> PeekAt(Rest(), n).Rune? ==> Span(Rest(), n) > len
    {
      hide Decode, Ordered, Reader.Rest, PeekAt, Reach, Span, Ahead, Size, Peek, Raised;
      if len <= peekedSize {
        Refill();
      }
      p := DecodeAhead(peekedSize, n);
    }

    /** A rune peeked before. */
    method Seen(n: nat) returns (p: Peeked)
      requires Valid() && n < |peeked|
      ensures p.Rune? && p == PeekAt(Rest(), n) && p == peeked[n]
    {
      hide Decode, Ordered, Reader.Rest, PeekAt, Reach, Span, Ahead, Size, Peek;
      AheadAt(Rest(), peeked, n);
      AheadRunes(Rest(), peeked);
      p := peeked[n];
    }

    method SizeOfPeeked() returns (k: nat)
      requires Valid()
      ensures k == Size(peeked)
    {
      AheadRunes(Rest(), peeked);
      k := 0;
      for i := 0 to |peeked|
        invariant k == Size(peeked[..i])
      {
        assert peeked[..i + 1] == peeked[..i] + [peeked[i]];
        SizeSnoc(peeked[..i], peeked[i]);
        k := k + peeked[i].size;
      }
      assert peeked[..|peeked|] == peeked;
    }

    /** peekTwoSize: certain after a one-byte rune. */
    method PeekTwoSize() returns (t: PeekedTwo)
      requires Valid()
      modifies this`peeked
      ensures Valid()
      ensures t.Two? ==> t == PeekTwo(Rest()) && t.size1 + t.size2 <= len
      ensures r == null || Reach(Rest(), 1) <= len ==> t == PeekTwo(Rest())
      ensures PeekAt(Rest(), 1).Rune? && Span(Rest(), 1) <= len ==> t == PeekTwo(Rest())
    {
      hide Decode, Ordered, Reader.Rest, Peek, Ahead, Reach, Span, PeekAt, Size, PeekTwo;
      var peekedSize := SizeOfPeeked();
      TwoAhead(Rest());
      while |peeked| < 2
        invariant Valid() && peekedSize == Size(peeked)
        decreases 2 - |peeked|
      {
        var p := DecodeAhead(peekedSize, 1);
        if p.Bad? {
          return BadTwo(p.e);
        }
        peekedSize := peekedSize + p.size;
      }
      var p := Seen(0);
      var q := Seen(1);
      FirstTwo(peeked, p, q);
      t := Two(p.c, p.size, q.c, q.size);
    }

    /** The window moves past a rune that lies ahead and is no longer peeked. */
    method Pass(p: Peeked)
      requires WindowOk() && MarksOk() && p.Rune? && p.size <= len && Size(peeked) + p.size <= len
      requires p.size <= |Rest()| && Ahead(Rest()[p.size..], peeked)
      modifies this`offset, this`len
      ensures WindowOk() && MarksOk() && PeeksOk()
      ensures Pos() == old(Pos()) + p.size && len == old(len) - p.size && offset >= p.size
    {
      hide Reader.Rest, Ordered, Ahead, Size;
      OrderedLater(marks, offset, p.size);
      assert stream[Pos()..][p.size..] == stream[Pos() + p.size..];
      offset := offset + p.size;
      len := len - p.size;
    }

    /** The first rune is taken off the window; it is in sight. */
    method Take() returns (p: Peeked)
      requires WindowOk() && MarksOk() && PeeksOk() && (r == null || len >= UTF_MAX)
      modifies this`peeked, this`offset, this`len
      ensures WindowOk() && MarksOk() && PeeksOk()
      ensures p == Peek(old(Rest()))
      ensures if p.Bad? then Pos() == old(Pos()) && len == old(len)
              else Pos() == old(Pos()) + p.size && len == old(len) - p.size && 1 <= p.size <= old(len) && offset >= p.size
    {
      hide Decode, Peek, Reader.Rest, Ordered;
      PeekSizeBound(Rest());
      if |peeked| > 0 {
        p := peeked[0];
        SizeFirst(peeked);
        peeked := peeked[1..];
      } else {
        WindowOfRest(0);
        WindowExact(Window(), Rest());
        p := Peek(buf[offset..rawLen]);
        if p.Bad? {
          return;
        }
      }
      Pass(p);
    }

    /** Before a rune is consumed: more than the lookahead is in sight, or everything. */
    method Replenish()
      requires Valid()
      modifies this, Live()
      ensures Steady() && Kept() && peeked == old(peeked) && (r == null || len > 2 * UTF_MAX)
    {
      if len <= UTF_MAX * 2 {
        Refill();
      }
    }

    method CountRune(c: rune)
      modifies this`line, this`column
      ensures (line, column) == Advance(old(line), old(column), c)
    {
      if Runes.IsNewline(c) {
        line := line + 1;
        column := 1;
      } else {
        column := column + 1;
      }
    }

    /** get: the next rune, whatever piece of the stream it came in. */
    method Get() returns (p: Peeked)
      requires Valid()
      modifies this, Live()
      ensures Steady() && Sighted() && Marks() == old(Marks())
      ensures p == Peek(old(Rest())) && (p.Rune? ==> offset > 0)
      ensures Pos() == old(Pos()) + if p.Rune? then p.size else 0
      ensures (line, column) == if p.Rune? then Advance(old(line), old(column), p.c) else (old(line), old(column))
    {
      hide Peek, Reader.Rest, Ordered, Ahead, Size, Advance, Raised;
      PeekSizeBound(Rest());
      Replenish();
      p := Take();
      if p.Rune? {
        CountRune(p.c);
      }
    }

    // ---------- Marks and bytes ----------

    method PushMark()
      requires Valid()
      modifies this`marks
      ensures Valid() && Marks() == old(Marks()) + [Pos()]
    {
      marks := marks + [offset];
    }

    method PopMark()
      requires Valid()
      modifies this`marks
      ensures Valid()
      ensures Marks() == if old(Marks()) == [] then [] else old(Marks())[..|old(Marks())| - 1]
    {
      if |marks| > 0 {
        marks := marks[..|marks| - 1];
      }
    }

    /** A slice nobody writes to: a copy while the reader is live, else part of the finished buffer. */
    method Share(from: nat, to: nat) returns (d: Slice)
      requires WindowOk() && from <= to <= rawLen
      ensures d.InRange() && d.a !in Live() && (d.a == buf || fresh(d.a))
      ensures d.Bytes() == stream[base + from..base + to]
    {
      hide Reader.Rest;
      PartOfStream(buf[..rawLen], stream, base, from, to);
      ArraySlice(buf, from, to, rawLen);
      if r == null {
        d := Slice(buf, from, to);
      } else {
        var copied := new byte[to - from];
        forall i | 0 <= i < to - from {
          copied[i] := buf[from + i];
        }
        assert copied[..] == buf[from..to];
        d := Slice(copied, 0, to - from);
      }
    }

    /** copyInput */
    method CopyInput(size: nat) returns (d: Slice)
      requires Valid() && size <= len
      ensures d.InRange() && d.a !in Live() && (d.a == buf || fresh(d.a))
      ensures d.Bytes() == Rest()[..size]
    {
      d := Share(offset, offset + size);
    }

    /** copyFromMark */
    method CopyFromMark() returns (d: Slice)
      requires Valid() && marks != []
      ensures d.InRange() && d.a !in Live() && (d.a == buf || fresh(d.a))
      ensures Marks()[|marks| - 1] <= Pos() && d.Bytes() == stream[Marks()[|marks| - 1]..Pos()]
    {
      d := Share(marks[|marks| - 1], offset);
    }
  }

  lemma PartOfStream(raw: Bytes, s: Bytes, base: nat, from: nat, to: nat)
    requires from <= to <= |raw| && base + |raw| <= |s| && raw == s[base..base + |raw|]
    ensures raw[from..to] == s[base + from..base + to]
  {
    forall k | 0 <= k < to - from
      ensures raw[from..to][k] == s[base + from..base + to][k]
    {
      assert raw[from + k] == s[base..base + |raw|][from + k];
    }
  }

  lemma ArraySlice(b: array<byte>, from: nat, to: nat, n: nat)
    requires from <= to <= n <= b.Length
    ensures b[from..to] == b[..n][from..to]
  {}

  function Advance(line: int, column: int, c: rune): (int, int) {
    if Runes.IsNewline(c) then (line + 1, 1) else (line, column + 1)
  }

  lemma PeekSizeBound(s: Bytes)
    ensures Peek(s).Rune? ==> 1 <= Peek(s).size <= UTF_MAX
  {}

  lemma SizeFirst(ps: seq<Peeked>)
    requires ps != [] && ps[0].Rune?
    ensures Size(ps[1..]) + ps[0].size == Size(ps)
  {}

  lemma FirstTwo(ps: seq<Peeked>, p: Peeked, q: Peeked)
    requires |ps| >= 2 && p == ps[0] && q == ps[1] && p.Rune? && q.Rune?
    ensures p.size + q.size <= Size(ps)
  {
    assert ps[1..][0] == ps[1];
  }

  lemma OrderedLater(marks: seq<nat>, offset: nat, size: nat)
    requires Ordered(marks, offset)
    ensures Ordered(marks, offset + size)
  {}

  lemma AheadOne(s: Bytes, p: Peeked)
    requires p.Rune? && Peek(s) == p
    ensures Ahead(s, [p]) && Size([p]) == p.size
  {
    assert [p][1..] == [];
  }

  lemma {:induction false} AheadRunes(s: Bytes, ps: seq<Peeked>)
    requires Ahead(s, ps)
    ensures forall p | p in ps :: p.Rune?
    decreases |ps|
  {
    if ps != [] {
      AheadRunes(s[ps[0].size..], ps[1..]);
    }
  }

  /** PeekTwo is the first and the second rune ahead. */
  lemma TwoAhead(s: Bytes)
    ensures PeekTwo(s) == var p, q := PeekAt(s, 0), PeekAt(s, 1);
                          if q.Bad? then BadTwo(q.e) else Two(p.c, p.size, q.c, q.size)
    ensures PeekAt(s, 1).Rune? ==> PeekAt(s, 0).Rune?
  {}

  /** A rune that is not seen is not there, or does not fit into the window. */
  lemma NotSeen(s: Bytes, w: Bytes, ps: seq<Peeked>, n: nat, len: nat, all: bool)
    requires Ahead(s, ps) && |ps| <= n && Size(ps) <= |s| && len == Size(ps) + |w|
    requires w <= s[Size(ps)..] && (all ==> w == s[Size(ps)..]) && Peek(w).Bad?
    ensures all || Reach(s, n) <= len ==> PeekAt(s, n) == Peek(w)
    ensures PeekAt(s, n).Rune? ==> Span(s, n) > len
  {
    hide Decode, Peek;
    var t := s[Size(ps)..];
    ReachGrows(s, ps, n);
    if all || |w| >= 4 {
      WindowExact(w, t);
      BadEarlier(s, ps, n);
    } else if PeekAt(s, n).Rune? && Peek(t).size <= |w| {
      WindowComplete(w, t);
    }
  }
}
