/**
  UTF-8 as the Go standard library decodes and encodes it.  Strings, token data
  and scanner buffers are all byte sequences in the program, so they are here.
 */
module Utf8 {

  type byte = x: int | 0 <= x < 256 witness 0
  type Bytes = seq<byte>
  type rune = int

  const RUNE_ERROR: rune := 0xFFFD

  /** A decoded rune together with the number of bytes it occupied. */
  datatype Decoded = Decoded(r: rune, size: nat)

  const INVALID := Decoded(RUNE_ERROR, 1)

  predicate Tail(b: byte) { 0x80 <= b < 0xC0 }

  /** Inclusive range of the second byte after a given first byte. */
  predicate SecondByteOk(b0: byte, b1: byte) {
    && (if b0 == 0xE0 then 0xA0 else if b0 == 0xF0 then 0x90 else 0x80) <= b1
    && b1 <= (if b0 == 0xED then 0x9F else if b0 == 0xF4 then 0x8F else 0xBF)
  }

  /** utf8.DecodeRune: size 0 on empty input, (RuneError, 1) on an invalid encoding. */
  function Decode(s: Bytes): (d: Decoded)
    ensures d.size <= |s| && (d.size == 0 <==> s == [])
    ensures s != [] && s[0] < 0x80 ==> d == Decoded(s[0], 1)
    ensures d.r < 0x80 ==> s != [] && s[0] == d.r && d.size == 1
  {
    if |s| == 0 then Decoded(RUNE_ERROR, 0)
    else if s[0] < 0x80 then Decoded(s[0], 1)
    else if s[0] < 0xC2 || s[0] > 0xF4 || |s| < 2 || !SecondByteOk(s[0], s[1]) then INVALID
    else if s[0] < 0xE0 then Decoded(Bits(s[0], 0xC0) * 0x40 + Bits(s[1], 0x80), 2)
    else if |s| < 3 || !Tail(s[2]) then INVALID
    else if s[0] < 0xF0 then Decoded(Bits(s[0], 0xE0) * 0x1000 + Bits(s[1], 0x80) * 0x40 + Bits(s[2], 0x80), 3)
    else if |s| < 4 || !Tail(s[3]) then INVALID
    else Decoded(Bits(s[0], 0xF0) * 0x40000 + Bits(s[1], 0x80) * 0x1000 + Bits(s[2], 0x80) * 0x40 + Bits(s[3], 0x80), 4)
  }

  /** The payload of a byte below its marker bits. */
  function Bits(b: byte, marker: int): int { b as int - marker }

  predicate IsScalar(r: rune) {
    0 <= r <= 0x10FFFF && !(0xD800 <= r <= 0xDFFF)
  }

  /** utf8.AppendRune applied to an empty buffer; anything but a scalar value is encoded as U+FFFD. */
  function Encode(r: rune): (s: Bytes)
    ensures 1 <= |s| <= 4
  {
    if !IsScalar(r) then [0xEF, 0xBF, 0xBD]
    else if r < 0x80 then [r]
    else if r < 0x800 then [0xC0 + r / 0x40, 0x80 + r % 0x40]
    else if r < 0x10000 then [0xE0 + r / 0x1000, 0x80 + r / 0x40 % 0x40, 0x80 + r % 0x40]
    else [0xF0 + r / 0x40000, 0x80 + r / 0x1000 % 0x40, 0x80 + r / 0x40 % 0x40, 0x80 + r % 0x40]
  }

  /** Decoding does not look past the rune it returns, nor past four bytes. */
  lemma DecodeLocal(s: Bytes, n: nat, rest: Bytes)
    requires Decode(s) != INVALID || |s| >= 4
    requires Decode(s).size <= n <= |s|
    requires Decode(s) != INVALID || n >= 4
    requires s != []
    ensures Decode(s[..n] + rest) == Decode(s)
  {
    var t := s[..n] + rest;
    assert forall i | 0 <= i < n :: t[i] == s[i];
  }

  /** Every byte of a multi-byte rune is at or above 0x80, and only the first can start a rune. */
  lemma MultiByte(s: Bytes)
    requires Decode(s).size > 1
    ensures forall i | 0 <= i < Decode(s).size :: s[i] >= 0x80
    ensures forall i | 1 <= i < Decode(s).size :: Tail(s[i])
    ensures !Tail(s[0])
  {
    var d := Decode(s);
    assert SecondByteOk(s[0], s[1]);
  }

  /** Encoding inverts decoding. */
  lemma EncodeDecode(s: Bytes)
    requires s != [] && Decode(s) != INVALID
    ensures IsScalar(Decode(s).r) && Encode(Decode(s).r) == s[..Decode(s).size]
  {
    var d := Decode(s);
    if d.size == 2 {
      Digits2(s[0] - 0xC0, s[1] - 0x80);
    } else if d.size == 3 {
      Digits3(s[0] - 0xE0, s[1] - 0x80, s[2] - 0x80);
    } else if d.size == 4 {
      Digits4(s[0] - 0xF0, s[1] - 0x80, s[2] - 0x80, s[3] - 0x80);
    }
  }

  lemma Digits2(a: int, b: int)
    requires 0 <= b < 0x40
    ensures (a * 0x40 + b) / 0x40 == a && (a * 0x40 + b) % 0x40 == b
  {}

  lemma Shifts(r: int)
    ensures r / 0x1000 == r / 0x40 / 0x40 && r / 0x40000 == r / 0x40 / 0x40 / 0x40
  {}

  lemma Digits3(a: int, b: int, c: int)
    requires 0 <= b < 0x40 && 0 <= c < 0x40
    ensures var r := a * 0x1000 + b * 0x40 + c; r / 0x1000 == a && r / 0x40 % 0x40 == b && r % 0x40 == c
  {
    Shifts(a * 0x1000 + b * 0x40 + c);
    Digits2(a * 0x40 + b, c);
    Digits2(a, b);
  }

  lemma Digits4(a: int, b: int, c: int, d: int)
    requires 0 <= b < 0x40 && 0 <= c < 0x40 && 0 <= d < 0x40
    ensures var r := a * 0x40000 + b * 0x1000 + c * 0x40 + d;
            r / 0x40000 == a && r / 0x1000 % 0x40 == b && r / 0x40 % 0x40 == c && r % 0x40 == d
  {
    Shifts(a * 0x40000 + b * 0x1000 + c * 0x40 + d);
    Digits2(a * 0x1000 + b * 0x40 + c, d);
    Digits2(a * 0x40 + b, c);
    Digits2(a, b);
  }

  /** Decoding inverts encoding, whatever follows. */
  lemma DecodeEncode(r: rune, rest: Bytes)
    requires IsScalar(r)
    ensures Decode(Encode(r) + rest) == Decoded(r, |Encode(r)|)
  {
    var e := Encode(r);
    var s := e + rest;
    assert forall i | 0 <= i < |e| :: s[i] == e[i];
    Shifts(r);
    if r >= 0x10000 {
      FirstOf4(r);
      Positional(r, r / 0x40, r / 0x40 / 0x40, r / 0x40 / 0x40 / 0x40);
    } else if r >= 0x800 {
      Positional(r, r / 0x40, r / 0x40 / 0x40, 0);
    }
  }

  lemma FirstOf4(r: rune)
    requires 0x10000 <= r <= 0x10FFFF
    ensures var a, b := r / 0x40000, r / 0x1000 % 0x40; 0 <= a <= 4 && (a == 0 ==> b >= 0x10) && (a == 4 ==> b <= 0xF)
  {}

  lemma Positional(r: int, q1: int, q2: int, q3: int)
    requires q1 == r / 0x40 && q2 == q1 / 0x40 && (q3 == q2 / 0x40 || (q3 == 0 && q2 < 0x40)) && r >= 0
    ensures q2 * 0x1000 + (q1 % 0x40) * 0x40 + r % 0x40 == r
    ensures q3 * 0x40000 + (q2 % 0x40) * 0x1000 + (q1 % 0x40) * 0x40 + r % 0x40 == r
  {}

  /** utf8.ValidString */
  predicate Valid(s: Bytes)
    decreases |s|
  {
    s == [] || (Decode(s) != INVALID && Valid(s[Decode(s).size..]))
  }

  lemma {:induction false} ValidConcat(a: Bytes, b: Bytes)
    requires Valid(a) && Valid(b)
    ensures Valid(a + b)
    decreases |a|
  {
    if a == [] {
      assert a + b == b;
    } else {
      var n := Decode(a).size;
      DecodeLocal(a, |a|, b);
      assert a[..|a|] == a;
      assert (a + b)[n..] == a[n..] + b;
      ValidConcat(a[n..], b);
    }
  }

  /** The second part of a valid string is valid when the first part is. */
  lemma {:induction false} ValidSuffix(a: Bytes, b: Bytes)
    requires Valid(a) && Valid(a + b)
    ensures Valid(b)
    decreases |a|
  {
    if a == [] {
      assert a + b == b;
    } else {
      var n := Decode(a).size;
      DecodeLocal(a, |a|, b);
      assert a[..|a|] == a;
      assert (a + b)[n..] == a[n..] + b;
      ValidSuffix(a[n..], b);
    }
  }

  predicate RuneStart(b: byte) { !Tail(b) }

  /** Index the backward search of utf8.DecodeLastRune stops at: a rune start, or three bytes back. */
  function LastStart(s: Bytes, i: nat, steps: nat): (k: nat)
    requires i < |s|
    ensures k <= i
    decreases steps
  {
    if i == 0 || steps == 0 || RuneStart(s[i]) then i else LastStart(s, i - 1, steps - 1)
  }

  /** utf8.DecodeLastRune */
  function DecodeLast(s: Bytes): (d: Decoded)
    ensures d.size <= |s| && (d.size == 0 <==> s == [])
  {
    if s == [] then Decoded(RUNE_ERROR, 0)
    else if s[|s| - 1] < 0x80 then Decoded(s[|s| - 1], 1)
    else
      var start := LastStart(s, |s| - 1, 3);
      var d := Decode(s[start..]);
      if start + d.size != |s| then INVALID else d
  }

  lemma DecodeLastEncode(a: Bytes, r: rune)
    requires IsScalar(r)
    ensures DecodeLast(a + Encode(r)) == Decoded(r, |Encode(r)|)
  {
    var e := Encode(r);
    var s := a + e;
    DecodeEncode(r, []);
    assert e + [] == e;
    if |e| > 1 {
      MultiByte(e);
      assert forall i | 0 <= i < |e| :: s[|a| + i] == e[i];
      LastStartAt(s, |s| - 1, |e| - 1, 3);
      assert s[|a|..] == e;
    } else {
      assert s[|s| - 1] == e[0];
    }
  }

  lemma {:induction false} LastStartAt(s: Bytes, i: nat, back: nat, steps: nat)
    requires back <= i < |s| && back <= steps
    requires RuneStart(s[i - back]) && forall j | i - back < j <= i :: !RuneStart(s[j])
    ensures LastStart(s, i, steps) == i - back
    decreases back
  {
    if back > 0 {
      LastStartAt(s, i - 1, back - 1, steps - 1);
    }
  }

  /** No rune begins inside a valid string and ends outside, whatever follows. */
  lemma {:induction false} WithinValid(w: Bytes, k: nat, rest: Bytes)
    requires Valid(w) && k < |w|
    ensures Decode(w[k..] + rest).size <= |w| - k
    decreases |w|
  {
    var n := Decode(w).size;
    if k == 0 {
      assert w[0..] == w == w[..|w|];
      DecodeLocal(w, |w|, rest);
    } else if k < n {
      MultiByte(w);
      assert (w[k..] + rest)[0] == w[k];
    } else {
      assert w[n..][k - n..] == w[k..];
      WithinValid(w[n..], k - n, rest);
    }
  }

  lemma {:induction false} LastStartAfter(w: Bytes, line: Bytes, i: nat, steps: nat)
    requires i < |line|
    ensures var k, k' := LastStart(line, i, steps), LastStart(w + line, |w| + i, steps);
            k' == |w| + k || (k == 0 && Tail(line[0]) && k' < |w|)
    decreases steps
  {
    assert (w + line)[|w| + i] == line[i];
    if i > 0 && steps > 0 {
      LastStartAfter(w, line, i - 1, steps - 1);
    }
  }

  /** The last rune of a string is the same after a valid one. */
  lemma DecodeLastAfter(w: Bytes, line: Bytes)
    requires Valid(w) && line != []
    ensures DecodeLast(w + line) == DecodeLast(line)
  {
    hide Decode, LastStart;
    var s, i := w + line, |line| - 1;
    assert s[|s| - 1] == line[i];
    LastStartAfter(w, line, i, 3);
    var k, k' := LastStart(line, i, 3), LastStart(s, |w| + i, 3);
    if k' == |w| + k {
      assert s[k'..] == line[k..];
    } else {
      assert s[k'..] == w[k'..] + line && line[0..] == line;
      WithinValid(w, k', line);
      TailInvalid(line);
    }
  }

  lemma TailInvalid(s: Bytes)
    requires s != [] && Tail(s[0])
    ensures Decode(s) == INVALID
  {}

  /** A non-empty valid string ends in the encoding of a scalar value, after a valid string. */
  lemma {:induction false} LastRune(s: Bytes) returns (a: Bytes, r: rune)
    requires s != [] && Valid(s)
    ensures IsScalar(r) && Valid(a) && s == a + Encode(r)
    decreases |s|
  {
    hide Decode, Encode;
    var n := Decode(s).size;
    EncodeDecode(s);
    if n == |s| {
      a, r := [], Decode(s).r;
      assert s[..n] == s;
    } else {
      var a', r' := LastRune(s[n..]);
      a, r := s[..n] + a', r';
      assert s == s[..n] + s[n..];
      ValidRuneBytes(s);
      ValidConcat(s[..n], a');
    }
  }

  lemma ValidRuneBytes(s: Bytes)
    requires s != [] && Decode(s) != INVALID
    ensures Valid(s[..Decode(s).size])
  {
    var n := Decode(s).size;
    DecodeLocal(s, n, []);
    assert s[..n] + [] == s[..n];
    assert s[..n][n..] == [];
  }

  /** unicode.IsSpace */
  predicate IsSpace(r: rune) {
    || 0x09 <= r <= 0x0D || r == 0x20 || r == 0x85 || r == 0xA0 || r == 0x1680
    || 0x2000 <= r <= 0x200A || r == 0x2028 || r == 0x2029 || r == 0x202F || r == 0x205F || r == 0x3000
  }

  /** The bytes of a string literal whose characters are all ASCII. */
  function Ascii(s: string): (b: Bytes)
    requires forall i | 0 <= i < |s| :: s[i] < 128 as char
    ensures |b| == |s| && forall i | 0 <= i < |s| :: b[i] == s[i] as int
  {
    seq(|s|, i requires 0 <= i < |s| => s[i] as int)
  }
}
