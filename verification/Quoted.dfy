/**
  Quoted strings: the double-quoted printer, the chunk-copying decoder that undoes it, and the
  rune-at-a-time decoder used for multi-line content.  Each loop is proved against a function that
  treats one character or one escape at a time.
 */
module Quoted {
  import opened Wrappers
  import opened Utf8

  const QUOTE: byte := '\"' as int
  const BACKSLASH: byte := '\\' as int

  // ---------- Printing ----------

  predicate NoEscape(c: byte) {
    0x20 <= c <= 0x7E && c != BACKSLASH && c != QUOTE
  }

  function HexDigit(n: nat): byte
    requires n < 16
  {
    if n < 10 then '0' as int + n else 'a' as int + (n - 10)
  }

  function Hex(c: byte): Bytes {
    if c < 16 then [HexDigit(c)] else [HexDigit(c / 16), HexDigit(c % 16)]
  }

  const REPLACEMENT_TEXT: Bytes := Ascii("\\ufffd")

  /** How the first character of s is written between quotes. */
  function EscapeFirst(s: Bytes, quote: byte): Bytes
    requires s != []
  {
    var c := s[0];
    if Decode(s) == INVALID then REPLACEMENT_TEXT
    else if c >= 0x80 then s[..Decode(s).size]
    else if NoEscape(c) then [c]
    else if c == quote || c == BACKSLASH || c == '/' as int then [BACKSLASH, c]
    else if c == 0x0A then [BACKSLASH, 'n' as int]
    else if c == 0x0D then [BACKSLASH, 'r' as int]
    else if c == 0x09 then [BACKSLASH, 't' as int]
    else if c == 0x08 then [BACKSLASH, 'b' as int]
    else if c == 0x0C then [BACKSLASH, 'f' as int]
    else [BACKSLASH, 'u' as int] + Hex(c)
  }

  function EscapeAll(s: Bytes, quote: byte): Bytes
    decreases |s|
  {
    if s == [] then [] else EscapeFirst(s, quote) + EscapeAll(s[Decode(s).size..], quote)
  }

  function Quote(s: Bytes, quote: byte): Bytes {
    [quote] + EscapeAll(s, quote) + [quote]
  }

  lemma {:induction false} NothingToEscape(s: Bytes, quote: byte)
    requires forall i | 0 <= i < |s| :: NoEscape(s[i])
    ensures EscapeAll(s, quote) == s
    decreases |s|
  {
    if s != [] {
      NothingToEscape(s[1..], quote);
      assert s == [s[0]] + s[1..];
    }
  }

  lemma Regroup(a: Bytes, b: Bytes, c: Bytes, d: Bytes)
    ensures a + b + (c + d) == a + (b + c) + d
  {}

  lemma Adjoin(s: Bytes, start: nat, i: nat, n: nat)
    requires start <= i && i + n <= |s|
    ensures s[start..i] + s[i..][..n] == s[start..i + n]
  {}

  /** A character that stands for itself. */
  lemma PlainFirst(s: Bytes, quote: byte)
    requires s != [] && (NoEscape(s[0]) || (s[0] >= 0x80 && Decode(s) != INVALID))
    ensures EscapeFirst(s, quote) == s[..Decode(s).size]
  {}

  /** One step of the copy loop: a character that stands for itself only lengthens the pending chunk. */
  lemma CopyStep(s: Bytes, quote: byte, b: Bytes, start: nat, i: nat)
    requires start <= i < |s|
    requires NoEscape(s[i]) || (s[i] >= 0x80 && Decode(s[i..]) != INVALID)
    ensures var n := Decode(s[i..]).size;
            b + s[start..i] + EscapeAll(s[i..], quote) == b + s[start..i + n] + EscapeAll(s[i + n..], quote)
  {
    hide Decode, EscapeAll, EscapeFirst, NoEscape;
    var n := Decode(s[i..]).size;
    EscapeAllStep(s, quote, i);
    PlainFirst(s[i..], quote);
    Adjoin(s, start, i, n);
    Regroup(b, s[start..i], s[i..][..n], EscapeAll(s[i + n..], quote));
  }

  lemma EscapeAllStep(s: Bytes, quote: byte, i: nat)
    requires i < |s|
    ensures EscapeAll(s[i..], quote) == EscapeFirst(s[i..], quote) + EscapeAll(s[i + Decode(s[i..]).size..], quote)
  {
    assert s[i..][Decode(s[i..]).size..] == s[i + Decode(s[i..]).size..];
  }

  /** The chunk is flushed and an escape appended. */
  lemma FlushStep(s: Bytes, quote: byte, b: Bytes, start: nat, i: nat)
    requires start <= i < |s|
    ensures var n := Decode(s[i..]).size;
            b + s[start..i] + EscapeAll(s[i..], quote)
            == b + s[start..i] + EscapeFirst(s[i..], quote) + s[i + n..i + n] + EscapeAll(s[i + n..], quote)
  {
    var n := Decode(s[i..]).size;
    assert s[i..][n..] == s[i + n..];
    assert s[i + n..i + n] == [];
  }

  method AppendQuotedString(b0: Bytes, s: Bytes, quote: byte) returns (b: Bytes)
    ensures b == b0 + Quote(s, quote)
  {
    b := b0 + [quote];
    var i := 0;
    while i < |s|
      invariant i <= |s|
      invariant forall j | 0 <= j < i :: NoEscape(s[j])
      invariant b == b0 + [quote]
    {
      if !NoEscape(s[i]) {
        b := AppendEscaped(b, s, quote, i);
        b := b + [quote];
        Enclose(b0, EscapeAll(s, quote), quote);
        return;
      }
      i := i + 1;
    }
    NothingToEscape(s, quote);
    b := b + s;
    b := b + [quote];
    Enclose(b0, s, quote);
  }

  lemma Enclose(a: Bytes, b: Bytes, quote: byte)
    ensures a + [quote] + b + [quote] == a + ([quote] + b + [quote])
  {}

  /** The copy loop entered at the first character that may need an escape. */
  method AppendEscaped(b0: Bytes, s: Bytes, quote: byte, i0: nat) returns (b: Bytes)
    requires i0 <= |s| && forall j | 0 <= j < i0 :: NoEscape(s[j])
    ensures b == b0 + EscapeAll(s, quote)
  {
    hide Decode, EscapeAll, EscapeFirst, NoEscape;
    b := b0;
    var i, start := i0, 0;
    PrefixStands(s, quote, i0);
    Assoc(b0, s[0..i0], EscapeAll(s[i0..], quote));
    while i < |s|
      invariant 0 <= start <= i <= |s|
      invariant b + s[start..i] + EscapeAll(s[i..], quote) == b0 + EscapeAll(s, quote)
      decreases |s| - i
    {
      var c := s[i];
      if NoEscape(c) {
        CopyStep(s, quote, b, start, i);
        i := i + Decode(s[i..]).size;
        continue;
      }
      if c >= 0x80 {
        var d := Decode(s[i..]);
        if d != INVALID {
          CopyStep(s, quote, b, start, i);
          i := i + d.size;
          continue;
        }
      }
      FlushStep(s, quote, b, start, i);
      assert s[start..start] == [] && b + [] == b;
      if start < i {
        b := b + s[start..i];
      }
      assert s[i..][0] == c;
      var e := EscapeFirstOf(s[i..], quote);
      b := b + e;
      i := i + Decode(s[i..]).size;
      start := i;
    }
    EscapeNothing(s, b, start, quote);
    if start < |s| {
      b := b + s[start..];
    }
  }

  lemma Assoc(a: Bytes, b: Bytes, c: Bytes)
    ensures a + b + c == a + (b + c)
  {}

  lemma EscapeNothing(s: Bytes, b: Bytes, start: nat, quote: byte)
    requires start <= |s|
    ensures b + s[start..|s|] + EscapeAll(s[|s|..], quote) == if start < |s| then b + s[start..] else b
  {
    assert s[start..|s|] == s[start..] && s[|s|..] == [];
    assert b + s[start..] + [] == b + s[start..];
  }

  /** The text written for a character that ends the pending chunk. */
  method EscapeFirstOf(s: Bytes, quote: byte) returns (e: Bytes)
    requires s != [] && !NoEscape(s[0]) && (s[0] >= 0x80 ==> Decode(s) == INVALID)
    ensures e == EscapeFirst(s, quote)
  {
    if s[0] >= 0x80 {
      e := REPLACEMENT_TEXT;
    } else {
      e := EscapeByte(s[0], quote);
    }
  }

  /** The switch that writes one ASCII character in need of an escape. */
  method EscapeByte(c: byte, quote: byte) returns (e: Bytes)
    requires c < 0x80 && !NoEscape(c)
    ensures forall s: Bytes | s != [] && s[0] == c :: e == EscapeFirst(s, quote)
  {
    if c == quote || c == BACKSLASH || c == '/' as int {
      e := [BACKSLASH, c];
    } else if c == 0x0A {
      e := [BACKSLASH, 'n' as int];
    } else if c == 0x0D {
      e := [BACKSLASH, 'r' as int];
    } else if c == 0x09 {
      e := [BACKSLASH, 't' as int];
    } else if c == 0x08 {
      e := [BACKSLASH, 'b' as int];
    } else if c == 0x0C {
      e := [BACKSLASH, 'f' as int];
    } else {
      e := [BACKSLASH, 'u' as int];
      e := e + Hex(c);
    }
  }

  lemma PlainStep(s: Bytes, quote: byte, i: nat)
    requires i < |s| && NoEscape(s[i])
    ensures EscapeAll(s[i..], quote) == [s[i]] + EscapeAll(s[i + 1..], quote)
  {
    hide EscapeAll;
    EscapeAllStep(s, quote, i);
  }

  lemma {:induction false} PrefixStands(s: Bytes, quote: byte, i: nat)
    requires i <= |s| && forall j | 0 <= j < i :: NoEscape(s[j])
    ensures s[0..i] + EscapeAll(s[i..], quote) == EscapeAll(s, quote)
    decreases i
  {
    hide EscapeAll, EscapeFirst, NoEscape;
    if i == 0 {
      assert s[0..] == s && s[0..0] + EscapeAll(s, quote) == EscapeAll(s, quote);
    } else {
      PrefixStands(s, quote, i - 1);
      PlainStep(s, quote, i - 1);
      Assoc(s[0..i - 1], [s[i - 1]], EscapeAll(s[i..], quote));
      assert s[0..i] == s[0..i - 1] + [s[i - 1]];
    }
  }

  // ---------- Decoding ----------

  predicate IsWhitespaceEscape(c: byte) {
    c == 0x20 || c == 0x09 || c == 0x0D || c == 0x0A
  }

  /** Bytes occupied by the leading whitespace runes of s. */
  function SpaceRun(s: Bytes): (n: nat)
    ensures n <= |s|
    ensures s != [] && IsSpace(Decode(s).r) ==> n > 0
    decreases |s|
  {
    var d := Decode(s);
    if s == [] || !IsSpace(d.r) then 0 else d.size + SpaceRun(s[d.size..])
  }

  function HexVal(c: byte): nat {
    if '0' as int <= c <= '9' as int then c - '0' as int
    else if 'a' as int <= c <= 'f' as int then c - 'a' as int + 10
    else if 'A' as int <= c <= 'F' as int then c - 'A' as int + 10
    else 0
  }

  /** Positional value of a string of hexadecimal digits, most significant first. */
  function HexValue(ds: Bytes): nat {
    if ds == [] then 0 else HexValue(ds[..|ds| - 1]) * 16 + HexVal(ds[|ds| - 1])
  }

  function Pow16(n: nat): nat { if n == 0 then 1 else 16 * Pow16(n - 1) }

  /** Index of the first closing brace, or |s|. */
  function BraceEnd(s: Bytes): (n: nat)
    ensures n <= |s| && (n < |s| ==> s[n] == '}' as int) && forall i | 0 <= i < n :: s[i] != '}' as int
  {
    if s == [] || s[0] == '}' as int then 0 else 1 + BraceEnd(s[1..])
  }

  /** What an escape stands for, and how many bytes it takes. */
  datatype Escape = Escape(size: nat, out: Bytes)

  /** The tail of a brace escape, starting at the opening brace. */
  function BraceEscape(s: Bytes): (e: Option<Escape>)
    requires s != [] && s[0] == '{' as int
    ensures e.Some? ==> 2 <= e.value.size <= |s|
  {
    var n := BraceEnd(s[1..]);
    if n == |s| - 1 || n > 6 then None
    else
      var r := HexValue(s[1..1 + n]);
      if !IsScalar(r) then None else Some(Escape(n + 2, Encode(r)))
  }

  /** The first closing brace, n bytes after the opening one. */
  predicate BraceClosedAfter(s: Bytes, n: nat) {
    n + 1 < |s| && s[n + 1] == '}' as int && forall i | 1 <= i <= n :: s[i] != '}' as int
  }

  /**
    A brace escape is accepted exactly when at most six bytes stand before its closing brace and they add
    up to a scalar value; bytes that are no hexadecimal digits count as zero, and there may be none.
   */
  lemma BraceAccepted(s: Bytes)
    requires s != [] && s[0] == '{' as int
    ensures BraceEscape(s).Some? <==> exists n: nat | n <= 6 :: BraceClosedAfter(s, n) && IsScalar(HexValue(s[1..1 + n]))
    ensures forall n: nat | BraceClosedAfter(s, n) && BraceEscape(s).Some? ::
              BraceEscape(s).value == Escape(n + 2, Encode(HexValue(s[1..1 + n])))
  {
    hide Encode, HexValue;
    var k := BraceEnd(s[1..]);
    forall i | 1 <= i <= k ensures s[i] != '}' as int {
      assert s[1..][i - 1] != '}' as int;
    }
    if k < |s| - 1 {
      assert s[1..][k] == '}' as int;
      assert BraceClosedAfter(s, k);
    }
    forall n: nat | BraceClosedAfter(s, n) ensures n == k && k < |s| - 1 {
      assert s[1..][n] == '}' as int;
    }
  }

  function SimpleEscape(c: byte, quote: byte): Option<byte> {
    if c == quote || c == BACKSLASH then Some(c)
    else if c == 'n' as int then Some(0x0A)
    else if c == 'r' as int then Some(0x0D)
    else if c == 't' as int then Some(0x09)
    else if c == 'b' as int then Some(0x08)
    else if c == 'f' as int then Some(0x0C)
    else if c == 's' as int then Some(0x20)
    else None
  }

  /** An escape of a quoted string; s starts at the backslash. */
  function EscapeAt(s: Bytes, quote: byte): (e: Option<Escape>)
    requires s != []
    ensures e.Some? ==> 2 <= e.value.size <= |s|
  {
    if |s| == 1 then None
    else
      var c := s[1];
      if IsWhitespaceEscape(c) then Some(Escape(1 + SpaceRun(s[1..]), []))
      else if SimpleEscape(c, quote).Some? then Some(Escape(2, [SimpleEscape(c, quote).value]))
      else if c == 'u' as int then
        if |s| <= 4 || s[2] != '{' as int then None
        else
          var e := BraceEscape(s[2..]);
          if e.None? then None else Some(Escape(e.value.size + 2, e.value.out))
      else if c == '/' as int then Some(Escape(2, [c]))
      else None
  }

  function Prepend(a: Bytes, b: Option<Bytes>): Option<Bytes> {
    if b.None? then None else Some(a + b.value)
  }

  /** Decoding of the text between the quotes, one character or escape at a time. */
  function Unescape(s: Bytes, quote: byte): Option<Bytes>
    decreases |s|
  {
    if s == [] then Some([])
    else if s[0] != BACKSLASH then
      var n := Decode(s).size;
      Prepend(if Decode(s) == INVALID then REPLACEMENT_TEXT else s[..n], Unescape(s[n..], quote))
    else
      var e := EscapeAt(s, quote);
      if e.None? then None else Prepend(e.value.out, Unescape(s[e.value.size..], quote))
  }

  function Unquote(s: Bytes, quote: byte): Option<Bytes> {
    if |s| < 2 || s[0] != quote || s[|s| - 1] != quote then None else Unescape(s[1..|s| - 1], quote)
  }

  function BraceText(ds: Bytes): Bytes { ['{' as int] + ds + ['}' as int] }

  lemma BraceEndAt(ds: Bytes, t: Bytes)
    requires forall i | 0 <= i < |ds| :: ds[i] != '}' as int
    ensures BraceEnd(ds + ['}' as int] + t) == |ds|
  {
    var u := ds + ['}' as int] + t;
    assert u[|ds|] == '}' as int;
    assert forall i | 0 <= i < |ds| :: u[i] == ds[i];
  }

  lemma BraceParts(ds: Bytes, t: Bytes)
    ensures var s := BraceText(ds) + t; s[1..] == ds + ['}' as int] + t && s[1..1 + |ds|] == ds
  {
    var u := ds + ['}' as int] + t;
    assert BraceText(ds) + t == ['{' as int] + u;
  }

  /** Whatever stands between the braces. */
  lemma BraceEscapes(ds: Bytes, t: Bytes)
    requires forall i | 0 <= i < |ds| :: ds[i] != '}' as int
    ensures BraceEscape(BraceText(ds) + t)
         == if |ds| <= 6 && IsScalar(HexValue(ds)) then Some(Escape(|ds| + 2, Encode(HexValue(ds)))) else None
  {
    hide HexValue, Encode, IsScalar, BraceEnd;
    BraceEndAt(ds, t);
    BraceParts(ds, t);
  }

  /** In a quoted string, an escape with empty braces has to be followed by something. */
  lemma BraceDecodes(ds: Bytes, t: Bytes)
    requires forall i | 0 <= i < |ds| :: ds[i] != '}' as int
    ensures Unescape([BACKSLASH, 'u' as int] + (BraceText(ds) + t), QUOTE)
         == if |ds| <= 6 && IsScalar(HexValue(ds)) && |ds| + |t| > 0
            then Prepend(Encode(HexValue(ds)), Unescape(t, QUOTE)) else None
  {
    hide HexValue, Encode, IsScalar, BraceEscape, Unescape;
    var s := [BACKSLASH, 'u' as int] + (BraceText(ds) + t);
    BraceEscapes(ds, t);
    assert s[2..] == BraceText(ds) + t;
    assert s[|ds| + 4..] == t;
    EscapeUnescapes(s);
  }

  lemma EscapeUnescapes(s: Bytes)
    requires s != [] && s[0] == BACKSLASH
    ensures var e := EscapeAt(s, QUOTE);
            Unescape(s, QUOTE) == if e.None? then None else Prepend(e.value.out, Unescape(s[e.value.size..], QUOTE))
  {}

  /** So braces around nothing, or around a letter that is no digit, stand for the character zero. */
  lemma EmptyBraces(t: Bytes)
    ensures Unescape([BACKSLASH, 'u' as int] + (BraceText(['z' as int]) + t), QUOTE) == Prepend([0], Unescape(t, QUOTE))
    ensures t != [] ==> Unescape([BACKSLASH, 'u' as int] + (BraceText([]) + t), QUOTE) == Prepend([0], Unescape(t, QUOTE))
  {
    hide Unescape;
    ZeroDigits();
    BraceDecodes(['z' as int], t);
    BraceDecodes([], t);
  }

  lemma ZeroDigits()
    ensures HexValue([]) == 0 && HexValue(['z' as int]) == 0
  {
    assert ['z' as int][..0] == [];
  }

  lemma PrependAssoc(a: Bytes, b: Bytes, o: Option<Bytes>)
    ensures Prepend(a, Prepend(b, o)) == Prepend(a + b, o)
  {
    if o.Some? {
      assert a + (b + o.value) == (a + b) + o.value;
    }
  }

  lemma Pow16Small(n: nat)
    requires n <= 6
    ensures Pow16(n) <= 0x100_0000
  {
    assert Pow16(0) == 1 && Pow16(1) == 16 && Pow16(2) == 256;
    assert Pow16(3) == 4096 && Pow16(4) == 0x10000;
    assert Pow16(5) == 0x10_0000 && Pow16(6) == 0x100_0000;
  }

  lemma {:induction false} HexValueBound(ds: Bytes)
    ensures HexValue(ds) < Pow16(|ds|)
  {
    if ds != [] {
      HexValueBound(ds[..|ds| - 1]);
    }
  }

  /** Splitting the most significant digit off. */
  lemma {:induction false} HexValueFirst(ds: Bytes)
    requires ds != []
    ensures HexValue(ds) == HexVal(ds[0]) * Pow16(|ds| - 1) + HexValue(ds[1..])
  {
    if |ds| == 1 {
      assert ds[..0] == [];
    } else {
      var p := ds[..|ds| - 1];
      HexValueFirst(p);
      assert p[1..] == ds[1..][..|ds| - 2];
      Distribute(HexVal(ds[0]), Pow16(|ds| - 2));
    }
  }

  lemma Distribute(a: nat, p: nat)
    ensures a * p * 16 == a * (16 * p)
  {}

  /** The backward digit loop: it computes the positional value and no step leaves the int32 range. */
  method HexLoop(ds: Bytes) returns (r: int)
    requires |ds| <= 6
    ensures r == HexValue(ds)
    ensures 0 <= r < 0x100_0000
  {
    r := 0;
    var factor := 1;
    var j := |ds|;
    while j > 0
      invariant 0 <= j <= |ds|
      invariant r == HexValue(ds[j..]) && factor == Pow16(|ds| - j)
      invariant 0 <= r < factor <= 0x100_0000
    {
      j := j - 1;
      HexValueFirst(ds[j..]);
      HexValueBound(ds[j..]);
      assert ds[j..][1..] == ds[j + 1..];
      Pow16Small(|ds| - j);
      // the intermediate product and both new values fit a Go rune
      assert HexVal(ds[j]) * factor < 0x8000_0000;
      r := r + HexVal(ds[j]) * factor;
      factor := factor * 16;
      assert r < 0x8000_0000 && factor < 0x8000_0000;
    }
    assert ds[0..] == ds;
    HexValueBound(ds);
    Pow16Small(|ds|);
  }

  /** The loop that looks for the closing brace. */
  method FindBrace(s: Bytes, start: nat) returns (i: nat)
    requires start <= |s|
    ensures i == start + BraceEnd(s[start..])
  {
    i := start;
    while i < |s| && s[i] != '}' as int
      invariant start <= i <= |s|
      invariant i + BraceEnd(s[i..]) == start + BraceEnd(s[start..])
    {
      assert s[i..][1..] == s[i + 1..];
      i := i + 1;
    }
  }

  /** The code point between braces, from the opening brace: the digit count, range and surrogate checks. */
  method DecodeBrace(s: Bytes, open: nat) returns (ok: bool, i: nat, out: Bytes)
    requires open < |s| && s[open] == '{' as int
    ensures ok <==> BraceEscape(s[open..]).Some?
    ensures ok ==> open < i <= |s| && BraceEscape(s[open..]) == Some(Escape(i - open, out))
  {
    var start := open + 1;
    ok, i, out := false, start, [];
    assert s[open..][1..] == s[start..];
    i := FindBrace(s, start);
    if i >= |s| || i - start > 6 {
      return;
    }
    assert s[open..][1..1 + (i - start)] == s[start..i];
    var r := HexLoop(s[start..i]);
    if r > 0x10FFFF || 0xD800 <= r <= 0xDFFF {
      return;
    }
    ok, i, out := true, i + 1, Encode(r);
  }

  /** The loop that skips the whitespace of a whitespace escape. */
  method SkipSpaces(s: Bytes, start: nat) returns (i: nat)
    requires start <= |s|
    ensures i == start + SpaceRun(s[start..])
  {
    hide Decode, IsSpace, SpaceRun;
    i := start;
    while i < |s|
      invariant start <= i <= |s|
      invariant i + SpaceRun(s[i..]) == start + SpaceRun(s[start..])
    {
      var d := Decode(s[i..]);
      SpaceRunStep(s, i);
      if !IsSpace(d.r) {
        break;
      }
      i := i + d.size;
    }
    if i == |s| {
      NoSpaceRun(s[i..]);
    }
  }

  lemma NoSpaceRun(s: Bytes)
    requires s == []
    ensures SpaceRun(s) == 0
  {}

  /** One rune of the run; what follows it is the rest of the text further on. */
  lemma SpaceRunStep(s: Bytes, i: nat)
    requires i < |s|
    ensures var d := Decode(s[i..]);
            1 <= d.size <= |s| - i && SpaceRun(s[i..]) == if IsSpace(d.r) then d.size + SpaceRun(s[i + d.size..]) else 0
  {
    hide IsSpace, Decode;
    Further(s, i, Decode(s[i..]).size);
  }

  lemma Further(s: Bytes, i: nat, n: nat)
    requires i + n <= |s|
    ensures s[i..][n..] == s[i + n..]
  {}

  /** A character that stands for itself only lengthens the pending chunk. */
  lemma DecodeCopyStep(s: Bytes, quote: byte, b: Bytes, start: nat, i: nat)
    requires start <= i < |s| && s[i] != BACKSLASH && Decode(s[i..]) != INVALID
    ensures var n := Decode(s[i..]).size;
            Prepend(b + s[start..i], Unescape(s[i..], quote)) == Prepend(b + s[start..i + n], Unescape(s[i + n..], quote))
  {
    var n := Decode(s[i..]).size;
    assert s[i..][n..] == s[i + n..];
    PrependAssoc(b + s[start..i], s[i..][..n], Unescape(s[i + n..], quote));
    assert b + s[start..i] + s[i..][..n] == b + s[start..i + n];
  }

  /** The chunk is flushed and the meaning of an escape appended. */
  lemma DecodeFlushStep(s: Bytes, quote: byte, b: Bytes, start: nat, i: nat, n: nat, out: Bytes)
    requires start <= i < |s| && i + n <= |s|
    requires Unescape(s[i..], quote) == Prepend(out, Unescape(s[i + n..], quote))
    ensures Prepend(b + s[start..i], Unescape(s[i..], quote))
         == Prepend(b + s[start..i] + out + s[i + n..i + n], Unescape(s[i + n..], quote))
  {
    PrependAssoc(b + s[start..i], out, Unescape(s[i + n..], quote));
    assert b + s[start..i] + out + s[i + n..i + n] == b + s[start..i] + out;
  }

  /** AppendUnquotedString; None is the error return. */
  method AppendUnquotedString(b0: Bytes, q: Bytes, quote: byte) returns (r: Option<Bytes>)
    ensures r == Prepend(b0, Unquote(q, quote))
  {
    if |q| < 2 || q[0] != quote || q[|q| - 1] != quote {
      return None;
    }
    var s := q[1..|q| - 1];
    var i := 0;
    while i < |s|
      invariant i <= |s|
      invariant forall j | 0 <= j < i :: s[j] != BACKSLASH && s[j] < 0x80
    {
      if s[i] == BACKSLASH || s[i] >= 0x80 {
        r := AppendUnescaped(b0, s, quote, i);
        return;
      }
      i := i + 1;
    }
    PlainPrefix(s, quote, |s|, b0);
    assert s[0..|s|] == s && s[|s|..] == [];
    assert b0 + s + [] == b0 + s;
    r := Some(b0 + s);
  }

  lemma {:induction false} PlainPrefix(s: Bytes, quote: byte, i: nat, b: Bytes)
    requires i <= |s| && forall j | 0 <= j < i :: s[j] != BACKSLASH && s[j] < 0x80
    ensures Prepend(b + s[0..i], Unescape(s[i..], quote)) == Prepend(b, Unescape(s, quote))
    decreases i
  {
    if i == 0 {
      assert s[0..] == s && b + s[0..0] == b;
    } else {
      PlainPrefix(s, quote, i - 1, b);
      assert s[i - 1..][0] == s[i - 1];
      DecodeCopyStep(s, quote, b, 0, i - 1);
    }
  }

  /** An escape: the chunk is flushed and the meaning of the escape appended. */
  lemma EscapeStep(s: Bytes, quote: byte, b: Bytes, start: nat, i: nat, next: nat, out: Bytes)
    requires start <= i < next <= |s| && s[i] == BACKSLASH
    requires EscapeAt(s[i..], quote) == Some(Escape(next - i, out))
    ensures Prepend(b + s[start..i], Unescape(s[i..], quote))
         == Prepend(b + s[start..i] + out + s[next..next], Unescape(s[next..], quote))
  {
    hide EscapeAt, Decode;
    assert s[i..][0] == s[i] && s[i..][next - i..] == s[next..];
    DecodeFlushStep(s, quote, b, start, i, next - i, out);
  }

  lemma InvalidStep(s: Bytes, quote: byte, b: Bytes, start: nat, i: nat)
    requires start <= i < |s| && s[i] != BACKSLASH && Decode(s[i..]) == INVALID
    ensures Prepend(b + s[start..i], Unescape(s[i..], quote))
         == Prepend(b + s[start..i] + REPLACEMENT_TEXT + s[i + 1..i + 1], Unescape(s[i + 1..], quote))
  {
    assert s[i..][0] == s[i] && s[i..][1..] == s[i + 1..];
    DecodeFlushStep(s, quote, b, start, i, 1, REPLACEMENT_TEXT);
  }

  lemma BadEscape(s: Bytes, quote: byte, b: Bytes, i: nat)
    requires i < |s| && s[i] == BACKSLASH && EscapeAt(s[i..], quote).None?
    ensures Prepend(b, Unescape(s[i..], quote)) == None
  {
    assert s[i..][0] == s[i];
  }

  lemma UnescapeNothing(s: Bytes, b: Bytes, start: nat, quote: byte)
    requires start <= |s|
    ensures Prepend(b + s[start..|s|], Unescape(s[|s|..], quote)) == Some(if start < |s| then b + s[start..] else b)
  {
    assert s[start..|s|] == s[start..] && s[|s|..] == [];
    assert b + s[start..] + [] == b + s[start..] && (start == |s| ==> b + s[start..] == b);
  }

  /** The decoding loop entered at the first backslash or multi-byte rune. */
  method AppendUnescaped(b0: Bytes, s: Bytes, quote: byte, i0: nat) returns (res: Option<Bytes>)
    requires i0 <= |s| && forall j | 0 <= j < i0 :: s[j] != BACKSLASH && s[j] < 0x80
    ensures res == Prepend(b0, Unescape(s, quote))
  {
    hide Decode, Unescape, EscapeAt, Prepend;
    var b := b0;
    var i, start := i0, 0;
    PlainPrefix(s, quote, i0, b0);
    while i < |s|
      invariant 0 <= start <= i <= |s|
      invariant Prepend(b + s[start..i], Unescape(s[i..], quote)) == Prepend(b0, Unescape(s, quote))
      decreases |s| - i
    {
      var c := s[i];
      assert s[i..][0] == c;
      var out, next: nat;
      if c != BACKSLASH {
        var d := Decode(s[i..]);
        if c < 0x80 || d != INVALID {
          DecodeCopyStep(s, quote, b, start, i);
          i := i + d.size;
          continue;
        }
        InvalidStep(s, quote, b, start, i);
        out, next := REPLACEMENT_TEXT, i + 1;
      } else {
        var ok;
        ok, next, out := DecodeEscape(s, quote, i);
        if !ok {
          BadEscape(s, quote, b + s[start..i], i);
          return None;
        }
        EscapeStep(s, quote, b, start, i, next, out);
      }
      assert s[start..start] == [] && b + [] == b;
      if start < i {
        b := b + s[start..i];
      }
      b := b + out;
      i := next;
      start := i;
    }
    UnescapeNothing(s, b, start, quote);
    if start < |s| {
      b := b + s[start..];
    }
    res := Some(b);
  }

  /** The body of the loop from a backslash on: the bytes appended and the index after the escape. */
  method DecodeEscape(s: Bytes, quote: byte, i0: nat) returns (ok: bool, i: nat, out: Bytes)
    requires i0 < |s| && s[i0] == BACKSLASH
    ensures ok <==> EscapeAt(s[i0..], quote).Some?
    ensures ok ==> i0 < i <= |s| && EscapeAt(s[i0..], quote) == Some(Escape(i - i0, out))
  {
    hide BraceEscape, SpaceRun;
    ok, i, out := false, i0 + 1, [];
    if i == |s| {
      return;
    }
    var c := s[i];
    assert s[i0..][1] == c && s[i0..][1..] == s[i..];
    if IsWhitespaceEscape(c) {
      i := SkipSpaces(s, i);
      ok := true;
      return;
    }
    if c == quote || c == BACKSLASH {
      out := [c];
    } else if c == 'n' as int {
      out := [0x0A];
    } else if c == 'r' as int {
      out := [0x0D];
    } else if c == 't' as int {
      out := [0x09];
    } else if c == 'b' as int {
      out := [0x08];
    } else if c == 'f' as int {
      out := [0x0C];
    } else if c == 's' as int {
      out := [0x20];
    } else if c == 'u' as int {
      if i + 3 >= |s| || s[i + 1] != '{' as int {
        return;
      }
      assert s[i0..][2..] == s[i + 1..];
      ok, i, out := DecodeBrace(s, i + 1);
      return;
    } else if c == '/' as int {
      out := [c];
    } else {
      return;
    }
    i := i + 1;
    ok := true;
  }

  // ---------- Round trip ----------

  predicate Printable(c: byte) {
    (c >= 0x20 && c != 0x7F) || c == 0x08 || c == 0x09 || c == 0x0A || c == 0x0C || c == 0x0D
  }

  /** The strings the quoted notation can carry. */
  predicate Quotable(s: Bytes) {
    Valid(s) && forall i | 0 <= i < |s| :: Printable(s[i])
  }

  lemma QuotableFirst(s: Bytes)
    requires s != []
    ensures Quotable(s) <==> Decode(s) != INVALID && (s[0] < 0x80 ==> Printable(s[0])) && Quotable(s[Decode(s).size..])
  {
    var n := Decode(s).size;
    assert forall i | n <= i < |s| :: s[i] == s[n..][i - n];
    if n > 1 {
      MultiByte(s);
    }
  }

  /** One printed character decodes to itself exactly when it is printable. */
  lemma UnescapeFirst(s: Bytes, rest: Bytes)
    requires s != []
    ensures var ok := Decode(s) != INVALID && (s[0] < 0x80 ==> Printable(s[0]));
            Unescape(EscapeFirst(s, QUOTE) + rest, QUOTE)
            == if ok then Prepend(s[..Decode(s).size], Unescape(rest, QUOTE)) else None
  {
    var c, d := s[0], Decode(s);
    var e := EscapeFirst(s, QUOTE);
    var t := e + rest;
    if d == INVALID {
      assert t[..6] == REPLACEMENT_TEXT;
      assert t[0] == BACKSLASH && t[1] == 'u' as int && t[2] == 'f' as int;
    } else if c >= 0x80 {
      DecodeLocal(s, d.size, rest);
      assert t[0] == c && t[d.size..] == rest && t[..d.size] == e;
    } else if NoEscape(c) {
      assert t[0] == c && t[1..] == rest && t[..1] == [c] == s[..1];
    } else {
      assert t[0] == BACKSLASH && t[1] == e[1];
      assert t[2..] == (if |e| == 2 then rest else e[2..] + rest);
      if |e| > 2 {
        assert t[2] == e[2] != '{' as int;
      } else {
        assert s[..1] == [c];
      }
    }
  }

  /**
    Unquoting the double-quoted form gives the string back for exactly the strings the notation can
    carry; every other string is rejected.
   */
  lemma {:induction false} EscapeRoundTrip(s: Bytes)
    ensures Unescape(EscapeAll(s, QUOTE), QUOTE) == if Quotable(s) then Some(s) else None
    decreases |s|
  {
    if s != [] {
      hide Decode, Unescape, EscapeFirst, EscapeAll, Quotable, Printable;
      var n := Decode(s).size;
      EscapeAllFirst(s);
      UnescapeFirst(s, EscapeAll(s[n..], QUOTE));
      EscapeRoundTrip(s[n..]);
      QuotableFirst(s);
      assert s[..n] + s[n..] == s;
    }
  }

  lemma EscapeAllFirst(s: Bytes)
    requires s != []
    ensures EscapeAll(s, QUOTE) == EscapeFirst(s, QUOTE) + EscapeAll(s[Decode(s).size..], QUOTE)
  {}

  lemma QuoteRoundTrip(s: Bytes)
    ensures Unquote(Quote(s, QUOTE), QUOTE) == if Quotable(s) then Some(s) else None
  {
    var q := Quote(s, QUOTE);
    assert q[1..|q| - 1] == EscapeAll(s, QUOTE);
    EscapeRoundTrip(s);
  }

  // ---------- The rune-at-a-time decoder ----------

  /** An escape of multi-line content; s starts at the backslash. */
  function ContentEscapeAt(s: Bytes, quote: byte, allowTrailing: bool): (e: Option<Escape>)
    requires s != []
    ensures e.Some? ==> 1 <= e.value.size <= |s|
  {
    if |s| == 1 then if allowTrailing then Some(Escape(1, [])) else None
    else
      var d := Decode(s[1..]);
      if IsSpace(d.r) then Some(Escape(1 + SpaceRun(s[1..]), []))
      else if d.r < 0x80 && SimpleEscape(s[1], quote).Some? then Some(Escape(2, [SimpleEscape(s[1], quote).value]))
      else if d.r == 'u' as int then
        if |s| == 2 || s[2] != '{' as int then None
        else
          var e := BraceEscape(s[2..]);
          if e.None? then None else Some(Escape(e.value.size + 2, e.value.out))
      else None
  }

  function UnescapeContent(s: Bytes, quote: byte, allowTrailing: bool): Option<Bytes>
    decreases |s|
  {
    if s == [] then Some([])
    else if s[0] != BACKSLASH then
      Prepend(Encode(Decode(s).r), UnescapeContent(s[Decode(s).size..], quote, allowTrailing))
    else
      var e := ContentEscapeAt(s, quote, allowTrailing);
      if e.None? then None else Prepend(e.value.out, UnescapeContent(s[e.value.size..], quote, allowTrailing))
  }

  method AppendUnquotedMultilineContent(b0: Bytes, s: Bytes, quote: byte, allowTrailingEscape: bool)
    returns (res: Option<Bytes>)
    requires quote == QUOTE || quote == '`' as int
    ensures res == Prepend(b0, UnescapeContent(s, quote, allowTrailingEscape))
  {
    hide Decode, UnescapeContent, ContentEscapeAt, Encode;
    var b, i := b0, 0;
    assert s[0..] == s;
    while i < |s|
      invariant 0 <= i <= |s|
      invariant Prepend(b, UnescapeContent(s[i..], quote, allowTrailingEscape))
             == Prepend(b0, UnescapeContent(s, quote, allowTrailingEscape))
      decreases |s| - i
    {
      var d := Decode(s[i..]);
      ContentStep(s, quote, allowTrailingEscape, b, i);
      if d.r != BACKSLASH {
        b := b + Encode(d.r);
        i := i + d.size;
        continue;
      }
      assert s[i..][0] == s[i];
      var ok, next, out := DecodeContentEscape(s, quote, i, allowTrailingEscape);
      if !ok {
        return None;
      }
      b := b + out;
      i := next;
    }
    ContentEnd(s, quote, allowTrailingEscape, b);
    res := Some(b);
  }

  lemma ContentEnd(s: Bytes, quote: byte, allowTrailing: bool, b: Bytes)
    ensures Prepend(b, UnescapeContent(s[|s|..], quote, allowTrailing)) == Some(b)
  {
    assert s[|s|..] == [] && b + [] == b;
  }

  lemma ContentStep(s: Bytes, quote: byte, allowTrailing: bool, b: Bytes, i: nat)
    requires i < |s|
    ensures var d, e := Decode(s[i..]), ContentEscapeAt(s[i..], quote, allowTrailing);
            Prepend(b, UnescapeContent(s[i..], quote, allowTrailing))
            == if d.r != BACKSLASH then Prepend(b + Encode(d.r), UnescapeContent(s[i + d.size..], quote, allowTrailing))
               else if e.None? then None
               else Prepend(b + e.value.out, UnescapeContent(s[i + e.value.size..], quote, allowTrailing))
  {
    var d, e := Decode(s[i..]), ContentEscapeAt(s[i..], quote, allowTrailing);
    if d.r != BACKSLASH {
      assert s[i..][d.size..] == s[i + d.size..];
      PrependAssoc(b, Encode(d.r), UnescapeContent(s[i + d.size..], quote, allowTrailing));
    } else if e.Some? {
      assert s[i..][e.value.size..] == s[i + e.value.size..];
      PrependAssoc(b, e.value.out, UnescapeContent(s[i + e.value.size..], quote, allowTrailing));
    }
  }

  /** The body of the loop from a backslash on. */
  method DecodeContentEscape(s: Bytes, quote: byte, i0: nat, allowTrailingEscape: bool)
    returns (ok: bool, i: nat, out: Bytes)
    requires i0 < |s| && s[i0] == BACKSLASH
    requires quote == QUOTE || quote == '`' as int
    ensures ok <==> ContentEscapeAt(s[i0..], quote, allowTrailingEscape).Some?
    ensures ok ==> i0 < i <= |s| && ContentEscapeAt(s[i0..], quote, allowTrailingEscape) == Some(Escape(i - i0, out))
  {
    hide Decode, BraceEscape, IsSpace;
    ok, i, out := false, i0 + 1, [];
    if i >= |s| {
      ok := allowTrailingEscape;
      return;
    }
    assert s[i0..][1..] == s[i..] && s[i0..][1] == s[i];
    var d := Decode(s[i..]);
    if IsSpace(d.r) {
      i := SkipSpaces(s, i);
      ok := true;
      return;
    }
    if d.r == 'n' as int {
      out := [0x0A];
    } else if d.r == 'r' as int {
      out := [0x0D];
    } else if d.r == 't' as int {
      out := [0x09];
    } else if d.r == 'b' as int {
      out := [0x08];
    } else if d.r == 'f' as int {
      out := [0x0C];
    } else if d.r == 's' as int {
      out := [0x20];
    } else if d.r == quote || d.r == BACKSLASH {
      out := [s[i]];
    } else if d.r == 'u' as int {
      if i + d.size >= |s| || s[i + d.size] != '{' as int {
        return;
      }
      assert s[i0..][2..] == s[i + 1..];
      ok, i, out := DecodeBrace(s, i + d.size);
      return;
    } else {
      return;
    }
    i := i + d.size;
    ok := true;
  }

  // ---------- The two decoders compared ----------

  /** Escapes that both notations read the same way. */
  predicate CommonEscape(s: Bytes)
    requires s != [] && s[0] == BACKSLASH
  {
    |s| == 1 || (&& s[1] != '/' as int
                 && (IsSpace(Decode(s[1..]).r) ==> IsWhitespaceEscape(s[1]))
                 && s != Ascii("\\u{}"))
  }

  /** The decoders treat an escape alike exactly when it is common to both notations. */
  lemma EscapesAgree(s: Bytes, quote: byte)
    requires s != [] && s[0] == BACKSLASH
    requires quote == QUOTE || quote == '`' as int
    ensures EscapeAt(s, quote) == ContentEscapeAt(s, quote, false) <==> CommonEscape(s)
  {
    if |s| > 1 {
      var c := s[1];
      assert s[1..][0] == c;
      if c == 'u' as int {
        if |s| == 4 && s[2] == '{' as int {
          ShortBrace(s);
        }
      } else if IsWhitespaceEscape(c) {
        assert Decode(s[1..]).r == c;
      }
    }
  }

  /** The only four-byte brace escape is the empty one. */
  lemma ShortBrace(s: Bytes)
    requires |s| == 4 && s[0] == BACKSLASH && s[1] == 'u' as int && s[2] == '{' as int
    ensures BraceEscape(s[2..]).Some? <==> s == Ascii("\\u{}")
  {
    var t := s[2..][1..];
    assert t == [s[3]];
    if s[3] == '}' as int {
      assert BraceEnd(t) == 0;
      assert s[2..][1..1] == [];
      assert s == Ascii("\\u{}");
    } else {
      assert t[1..] == [];
    }
  }

  /** Valid text all of whose escapes are common. */
  predicate Common(s: Bytes, quote: byte)
    decreases |s|
  {
    if s == [] then true
    else if s[0] != BACKSLASH then Decode(s) != INVALID && Common(s[Decode(s).size..], quote)
    else CommonEscape(s) && (EscapeAt(s, quote).Some? ==> Common(s[EscapeAt(s, quote).value.size..], quote))
  }

  /** On common text the chunk-copying and the rune-at-a-time decoder give equal output, or both fail. */
  lemma {:induction false} DecodersAgree(s: Bytes, quote: byte)
    requires Common(s, quote)
    requires quote == QUOTE || quote == '`' as int
    ensures Unescape(s, quote) == UnescapeContent(s, quote, false)
    decreases |s|
  {
    if s == [] {
    } else if s[0] != BACKSLASH {
      EncodeDecode(s);
      DecodersAgree(s[Decode(s).size..], quote);
    } else {
      EscapesAgree(s, quote);
      if EscapeAt(s, quote).Some? {
        DecodersAgree(s[EscapeAt(s, quote).value.size..], quote);
      }
    }
  }
}
