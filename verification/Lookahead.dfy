/** Looking ahead in a stream of runes, in the whole input and through a window on it. */
module Lookahead {
  import opened Utf8

  datatype ScanError = AtEnd | UnexpectedEOF | InvalidRune | BadCharacter | EndOfToken

  /** A rune and its size, or the reason there is none. */
  datatype Peeked = Rune(c: rune, size: nat) | Bad(e: ScanError)

  /** The first rune of what is left of the input. */
  function Peek(s: Bytes): (p: Peeked)
    ensures p.Rune? ==> 1 <= p.size <= |s| && p.size <= 4
    ensures p.Rune? && p.c < 0x80 ==> p.size == 1 && s[0] == p.c
    ensures s != [] && s[0] < 0x80 ==> p == Rune(s[0], 1)
    ensures p == Bad(AtEnd) <==> s == []
    ensures p.Bad? ==> p.e.AtEnd? || p.e.InvalidRune?
  {
    var d := Decode(s);
    if d.size == 0 then Bad(AtEnd) else if d.r == RUNE_ERROR then Bad(InvalidRune) else Rune(d.r, d.size)
  }

  /** The n-th rune ahead. */
  function PeekAt(s: Bytes, n: nat): Peeked
    decreases n
  {
    var p := Peek(s);
    if n == 0 || p.Bad? then p else PeekAt(s[p.size..], n - 1)
  }

  /** The bytes up to and including the n-th rune ahead, as far as there are runes. */
  function Span(s: Bytes, n: nat): (k: nat)
    ensures k <= |s|
    decreases n
  {
    var p := Peek(s);
    if p.Bad? then 0 else if n == 0 then p.size else p.size + Span(s[p.size..], n - 1)
  }

  /** The bytes that have to be in sight for the n-th rune ahead, or the lack of one, to be certain. */
  function Reach(s: Bytes, n: nat): (k: nat)
    ensures k >= 4
    decreases n
  {
    var p := Peek(s);
    if n == 0 || p.Bad? then 4 else p.size + Reach(s[p.size..], n - 1)
  }

  /** Two runes ahead, or the first reason there are not two. */
  datatype PeekedTwo = Two(c1: rune, size1: nat, c2: rune, size2: nat) | BadTwo(e: ScanError)

  function PeekTwo(s: Bytes): PeekedTwo {
    var p := Peek(s);
    if p.Bad? then BadTwo(p.e)
    else
      var q := Peek(s[p.size..]);
      if q.Bad? then BadTwo(q.e) else Two(p.c, p.size, q.c, q.size)
  }

  /** A rune seen through a window is the rune of the stream. */
  lemma WindowSound(w: Bytes, s: Bytes)
    requires w <= s && Peek(w).Rune?
    ensures Peek(s) == Peek(w)
  {
    DecodeLocal(w, |w|, s[|w|..]);
    assert w[..|w|] + s[|w|..] == s;
  }

  /** A rune that fits into the window is seen. */
  lemma WindowComplete(w: Bytes, s: Bytes)
    requires w <= s && Peek(s).Rune? && Peek(s).size <= |w|
    ensures Peek(w) == Peek(s)
  {
    DecodeLocal(s, |w|, []);
    assert s[..|w|] + [] == w;
  }

  /** With four bytes in sight, or all of the rest, nothing about the next rune is uncertain. */
  lemma WindowExact(w: Bytes, s: Bytes)
    requires w <= s && (|w| >= 4 || w == s)
    ensures Peek(w) == Peek(s)
  {
    if w != s {
      DecodeLocal(s, |w|, []);
      assert s[..|w|] + [] == w;
    }
  }

  /** The runes ps lie ahead in s, one after the other. */
  predicate Ahead(s: Bytes, ps: seq<Peeked>)
    decreases |ps|
  {
    ps == [] || (ps[0].Rune? && Peek(s) == ps[0] && Ahead(s[ps[0].size..], ps[1..]))
  }

  function Size(ps: seq<Peeked>): nat {
    if ps == [] then 0 else (if ps[0].Rune? then ps[0].size else 0) + Size(ps[1..])
  }

  lemma {:induction false} AheadSize(s: Bytes, ps: seq<Peeked>)
    requires Ahead(s, ps)
    ensures Size(ps) <= |s|
    decreases |ps|
  {
    if ps != [] {
      AheadSize(s[ps[0].size..], ps[1..]);
    }
  }

  lemma {:induction false} SizeSnoc(ps: seq<Peeked>, p: Peeked)
    ensures Size(ps + [p]) == Size(ps) + if p.Rune? then p.size else 0
    decreases |ps|
  {
    if ps == [] {
      assert ps + [p] == [p] && [p][1..] == [];
    } else {
      assert (ps + [p])[1..] == ps[1..] + [p];
      SizeSnoc(ps[1..], p);
    }
  }

  lemma {:induction false} AheadSnoc(s: Bytes, ps: seq<Peeked>, p: Peeked)
    requires Ahead(s, ps) && Size(ps) <= |s| && p.Rune? && Peek(s[Size(ps)..]) == p
    ensures Ahead(s, ps + [p])
    decreases |ps|
  {
    if ps == [] {
      assert ps + [p] == [p] && [p][1..] == [] && s[0..] == s;
    } else {
      var k := ps[0].size;
      assert (ps + [p])[1..] == ps[1..] + [p];
      AheadSize(s[k..], ps[1..]);
      assert s[k..][Size(ps[1..])..] == s[Size(ps)..];
      AheadSnoc(s[k..], ps[1..], p);
    }
  }

  /** What lies ahead is what PeekAt says, and takes up the bytes Span and Reach count. */
  lemma {:induction false} AheadAt(s: Bytes, ps: seq<Peeked>, n: nat)
    requires Ahead(s, ps) && n <= |ps|
    ensures n < |ps| ==> PeekAt(s, n) == ps[n] && Span(s, n) == Size(ps[..n + 1])
    ensures n == |ps| ==> Size(ps) <= |s| && PeekAt(s, n) == Peek(s[Size(ps)..]) && Reach(s, n) == Size(ps) + 4
    ensures n == |ps| ==> Span(s, n) == Size(ps) + if Peek(s[Size(ps)..]).Rune? then Peek(s[Size(ps)..]).size else 0
    decreases n
  {
    if n > 0 {
      var k := ps[0].size;
      AheadAt(s[k..], ps[1..], n - 1);
      if n < |ps| {
        assert ps[..n + 1][1..] == ps[1..][..n];
      } else {
        assert s[k..][Size(ps[1..])..] == s[Size(ps)..];
      }
    } else if |ps| > 0 {
      assert ps[..1][1..] == [];
    } else {
      assert s[0..] == s;
    }
  }

  /** Failing to see the n-th rune ahead, when an earlier one already fails. */
  lemma {:induction false} BadEarlier(s: Bytes, ps: seq<Peeked>, n: nat)
    requires Ahead(s, ps) && |ps| <= n && Size(ps) <= |s| && Peek(s[Size(ps)..]).Bad?
    ensures PeekAt(s, n) == Peek(s[Size(ps)..])
    decreases n
  {
    if ps == [] {
      assert s[0..] == s;
    } else {
      var k := ps[0].size;
      AheadSize(s[k..], ps[1..]);
      assert s[k..][Size(ps[1..])..] == s[Size(ps)..];
      BadEarlier(s[k..], ps[1..], n - 1);
    }
  }

  /** Looking further takes more bytes. */
  lemma {:induction false} ReachGrows(s: Bytes, ps: seq<Peeked>, n: nat)
    requires Ahead(s, ps) && |ps| <= n
    ensures Reach(s, n) >= Size(ps) + 4
    ensures Size(ps) <= |s| && (PeekAt(s, n).Rune? ==>
              Peek(s[Size(ps)..]).Rune? && Span(s, n) >= Size(ps) + Peek(s[Size(ps)..]).size)
    decreases n
  {
    if ps == [] {
      assert s[0..] == s;
    } else {
      var k := ps[0].size;
      assert s[k..][Size(ps[1..])..] == s[Size(ps)..] by { AheadSize(s[k..], ps[1..]); }
      ReachGrows(s[k..], ps[1..], n - 1);
    }
  }
}
