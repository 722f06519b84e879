/** Raw strings with an explicit hash count. */
module Raw {
  import opened Wrappers
  import opened Utf8
  import opened Quoted
  import opened Multiline

  const LETTER_R: byte := 'r' as int

  function RawQuote(s: Bytes, h: nat): Bytes {
    [LETTER_R] + Hashes(h) + [QUOTE] + s + [QUOTE] + Hashes(h)
  }

  method AppendRawString(b0: Bytes, s: Bytes, hashCount: nat) returns (b: Bytes)
    ensures b == b0 + RawQuote(s, hashCount)
  {
    b := b0 + [LETTER_R];
    b := AppendHashes(b, hashCount);
    b := b + [QUOTE];
    b := b + s;
    b := b + [QUOTE];
    b := AppendHashes(b, hashCount);
  }

  /** The raw notation of version 2. */
  function HashQuote(s: Bytes, h: nat): Bytes {
    Hashes(h) + ([QUOTE] + s + [QUOTE] + Hashes(h))
  }

  method AppendRawStringV2(b0: Bytes, s: Bytes, hashCount: nat) returns (b: Bytes)
    ensures b == b0 + HashQuote(s, hashCount)
  {
    b := AppendHashes(b0, hashCount);
    b := b + [QUOTE];
    b := b + s;
    b := b + [QUOTE];
    b := AppendHashes(b, hashCount);
  }

  method AppendHashes(b0: Bytes, hashCount: nat) returns (b: Bytes)
    ensures b == b0 + Hashes(hashCount)
  {
    b := b0;
    for i := 0 to hashCount
      invariant b == b0 + Hashes(i)
    {
      assert Hashes(i + 1) == Hashes(i) + [HASH];
      b := b + [HASH];
    }
  }

  function IndexOfQuote(b: Bytes): (p: nat)
    ensures p <= |b| && (p < |b| ==> b[p] == QUOTE) && forall i | 0 <= i < p :: b[i] != QUOTE
  {
    if b == [] || b[0] == QUOTE then 0 else 1 + IndexOfQuote(b[1..])
  }

  /**
    unquoteRawTokenString: content and hash count.  A token too short for its own hashes, which the
    program would slice out of range and no scanner returns, has no value here.
   */
  function UnquoteRaw(b: Bytes): Option<(Bytes, nat)> {
    var p := IndexOfQuote(b);
    if p == |b| then None
    else
      var hashCount := if p > 0 && b[0] == LETTER_R then p - 1 else p;
      var content := b[p + 1..];
      if |content| < 1 + hashCount then None
      else Some((content[..|content| - 1 - hashCount], hashCount))
  }

  /** The closing sequence of a raw string with h hashes starts at i. */
  predicate TerminatorAt(s: Bytes, i: int, h: nat) {
    0 <= i && i + 1 + h <= |s| && s[i] == QUOTE && s[i + 1..i + 1 + h] == Hashes(h)
  }

  predicate ContainsTerminator(s: Bytes, h: nat) {
    exists i :: 0 <= i < |s| && TerminatorAt(s, i, h)
  }

  /** The bytes a reader that stops at the first closing sequence consumes. */
  ghost predicate RawEnd(s: Bytes, h: nat, end: int) {
    && TerminatorAt(s, end - 1 - h, h)
    && forall i | 0 <= i < end - 1 - h :: !TerminatorAt(s, i, h)
  }

  lemma RawUnquotes(s: Bytes, h: nat)
    ensures UnquoteRaw(RawQuote(s, h)) == Some((s, h))
  {
    var b := RawQuote(s, h);
    var p := IndexOfQuote(b);
    assert b[h + 1] == QUOTE;
    assert forall i | 0 <= i < h + 1 :: b[i] != QUOTE;
    var content := b[p + 1..];
    assert content == s + [QUOTE] + Hashes(h);
    assert content[..|content| - 1 - h] == s;
  }

  lemma HashUnquotes(s: Bytes, h: nat)
    requires h >= 1
    ensures UnquoteRaw(HashQuote(s, h)) == Some((s, h))
  {
    var b := HashQuote(s, h);
    var p := IndexOfQuote(b);
    assert b[h] == QUOTE;
    assert forall i | 0 <= i < h :: b[i] == HASH;
    var content := b[p + 1..];
    assert content == s + [QUOTE] + Hashes(h);
    assert content[..|content| - 1 - h] == s;
  }

  /**
    After the opening quote of a printed raw string, whatever follows it, the first closing sequence
    is the printed one exactly when the string does not contain that sequence.
   */
  lemma RawStopsAtEnd(s: Bytes, h: nat, rest: Bytes)
    ensures RawEnd(s + [QUOTE] + Hashes(h) + rest, h, |s| + 1 + h) <==> !ContainsTerminator(s, h)
  {
    var t := s + [QUOTE] + Hashes(h) + rest;
    assert t[|s|] == QUOTE && t[|s| + 1..|s| + 1 + h] == Hashes(h);
    forall i | 0 <= i < |s|
      ensures TerminatorAt(t, i, h) <==> TerminatorAt(s, i, h)
    {
      assert t[i] == s[i];
      if i + 1 + h <= |s| {
        assert t[i + 1..i + 1 + h] == s[i + 1..i + 1 + h];
      } else if i + 1 + h <= |t| {
        assert t[i + 1..i + 1 + h][|s| - i - 1] == QUOTE;
      }
    }
  }

  lemma RawEndUnique(s: Bytes, h: nat, e1: int, e2: int)
    requires RawEnd(s, h, e1) && RawEnd(s, h, e2)
    ensures e1 == e2
  {}

  /** Scanning a printed raw string and unquoting what was scanned gives the string back. */
  lemma RawRoundTrip(s: Bytes, h: nat, rest: Bytes, end: int)
    requires !ContainsTerminator(s, h)
    requires RawEnd((RawQuote(s, h) + rest)[h + 2..], h, end)
    ensures UnquoteRaw((RawQuote(s, h) + rest)[..h + 2 + end]) == Some((s, h))
    ensures (RawQuote(s, h) + rest)[h + 2 + end..] == rest
  {
    var t := s + [QUOTE] + Hashes(h) + rest;
    var q := RawQuote(s, h);
    assert (q + rest)[h + 2..] == t;
    RawStopsAtEnd(s, h, rest);
    RawEndUnique(t, h, end, |s| + 1 + h);
    assert (q + rest)[..h + 2 + end] == q;
    RawUnquotes(s, h);
  }
}
