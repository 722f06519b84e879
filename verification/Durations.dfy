/** Base-60 durations: the text of a number of nanoseconds and the parser that undoes it. */
module Durations {
  import opened Wrappers
  import opened Utf8

  const NANOSECOND: int := 1
  const SECOND: int := 1_000_000_000
  const MINUTE: int := 60 * SECOND
  const HOUR: int := 60 * MINUTE

  const COLON: byte := ':' as int
  const DOT: byte := '.' as int
  const MINUS: byte := '-' as int
  const PLUS: byte := '+' as int
  const ZERO: byte := '0' as int

  predicate InInt64(n: int) { -0x8000_0000_0000_0000 <= n < 0x8000_0000_0000_0000 }

  predicate InInt32(n: int) { -0x8000_0000 <= n < 0x8000_0000 }

  /** The int64 a sum or product is stored as. */
  function Wrap64(n: int): (r: int)
    ensures InInt64(r) && (InInt64(n) ==> r == n)
  {
    (n + 0x8000_0000_0000_0000) % 0x1_0000_0000_0000_0000 - 0x8000_0000_0000_0000
  }

  /** Division as Go rounds it, toward zero. */
  function Quotient(a: int, b: int): int
    requires b > 0
  {
    if a >= 0 then a / b else -(-a / b)
  }

  // ---------- Decimal numbers ----------

  predicate IsDigit(c: byte) { ZERO <= c <= '9' as int }

  predicate AllDigits(s: Bytes) { forall i | 0 <= i < |s| :: IsDigit(s[i]) }

  function Digits(n: nat): (s: Bytes)
    ensures s != [] && AllDigits(s)
  {
    if n < 10 then [ZERO + n] else Digits(n / 10) + [ZERO + n % 10]
  }

  /** %d */
  function Decimal(n: int): Bytes {
    if n < 0 then [MINUS] + Digits(-n) else Digits(n)
  }

  /** %02d: the sign counts toward the width. */
  function Padded(n: int): Bytes {
    if 0 <= n < 10 then [ZERO] + Digits(n) else Decimal(n)
  }

  function Number(s: Bytes): nat {
    if s == [] || !IsDigit(s[|s| - 1]) then 0 else 10 * Number(s[..|s| - 1]) + (s[|s| - 1] - ZERO)
  }

  /** strconv.ParseInt in base 10 and 32 bits. */
  function ParseInt(s: Bytes): Option<int> {
    var digits := if s != [] && (s[0] == MINUS || s[0] == PLUS) then s[1..] else s;
    if digits == [] || !AllDigits(digits) then None
    else
      var n := if s[0] == MINUS then -(Number(digits) as int) else Number(digits);
      if InInt32(n) then Some(n) else None
  }

  lemma {:induction false} NumberOfDigits(n: nat)
    ensures Number(Digits(n)) == n
  {
    if n >= 10 {
      NumberOfDigits(n / 10);
      assert Digits(n)[..|Digits(n)| - 1] == Digits(n / 10);
    } else {
      assert Digits(n)[..0] == [];
    }
  }

  lemma ParseDecimal(n: int)
    requires InInt32(n)
    ensures ParseInt(Decimal(n)) == Some(n)
  {
    NumberOfDigits(if n < 0 then -n else n);
    if n < 0 {
      assert Decimal(n)[1..] == Digits(-n);
    }
  }

  lemma ParsePadded(n: int)
    requires InInt32(n)
    ensures ParseInt(Padded(n)) == Some(n)
  {
    ParseDecimal(n);
    if 0 <= n < 10 {
      var s := Padded(n);
      assert s == [ZERO, ZERO + n] && s[..1] == [ZERO];
      assert Number([ZERO]) == 0 by {
        assert [ZERO][..0] == [];
      }
      assert Number(s) == n;
    }
  }

  /** No separator occurs in a number. */
  lemma NoSeparator(n: int, sep: byte)
    requires sep == COLON || sep == DOT
    ensures sep !in Decimal(n) && sep !in Padded(n)
  {}

  // ---------- Fields ----------

  /** The four fields, each with the sign of the duration. */
  datatype Fields = Fields(h: int, m: int, s: int, ns: int)

  /** The unique fields below 60, 60 and a billion, all of one sign, that make up the duration. */
  predicate FieldsOf(f: Fields, d: int) {
    && f.h * HOUR + f.m * MINUTE + f.s * SECOND + f.ns == d
    && -60 < f.m < 60 && -60 < f.s < 60 && -SECOND < f.ns < SECOND
    && (d >= 0 ==> f.h >= 0 && f.m >= 0 && f.s >= 0 && f.ns >= 0)
    && (d <= 0 ==> f.h <= 0 && f.m <= 0 && f.s <= 0 && f.ns <= 0)
  }

  lemma FieldsUnique(f: Fields, g: Fields, d: int)
    requires FieldsOf(f, d) && FieldsOf(g, d)
    ensures f == g
  {
    var a, b := 60 * f.h + f.m, 60 * g.h + g.m;
    SameUnits(60 * a + f.s, 60 * b + g.s, f.ns, g.ns, SECOND);
    SameUnits(a, b, f.s, g.s, 60);
    SameUnits(f.h, g.h, f.m, g.m, 60);
  }

  lemma SameUnits(a: int, b: int, x: int, y: int, unit: nat)
    requires a * unit + x == b * unit + y && y - x < unit && x - y < unit
    ensures a == b && x == y
  {
    if a > b {
      Apart(a, b, unit);
    } else if b > a {
      Apart(b, a, unit);
    }
  }

  lemma {:induction false} Apart(a: int, b: int, unit: nat)
    requires a > b
    ensures a * unit >= b * unit + unit
    decreases a - b
  {
    assert a * unit == (a - 1) * unit + unit;
    if a - 1 > b {
      Apart(a - 1, b, unit);
    }
  }

  function Text(f: Fields): Bytes {
    Padded(f.h) + [COLON] + (Padded(f.m) + [COLON] + (Padded(f.s) + [DOT] + Decimal(f.ns)))
  }

  // ---------- Parsing ----------

  /** strings.Cut */
  function Cut(s: Bytes, sep: byte): (Bytes, Bytes, bool)
    decreases |s|
  {
    if s == [] then ([], [], false)
    else if s[0] == sep then ([], s[1..], true)
    else
      var (before, after, found) := Cut(s[1..], sep);
      ([s[0]] + before, after, found)
  }

  lemma {:induction false} CutAt(a: Bytes, sep: byte, b: Bytes)
    requires sep !in a
    ensures Cut(a + [sep] + b, sep) == (a, b, true)
  {
    var s := a + [sep] + b;
    if a == [] {
      assert s[1..] == b;
    } else {
      assert s[1..] == a[1..] + [sep] + b;
      CutAt(a[1..], sep, b);
      assert s[0] == a[0] && a == [a[0]] + a[1..];
    }
  }

  /** A further field of a duration, added in int64. */
  function Plus(d: Option<int>, unit: int, n: Option<int>): Option<int> {
    if d.None? || n.None? then None else Some(Wrap64(d.value + Wrap64(unit * n.value)))
  }

  /** The seconds and, after a dot, the nanoseconds; there may be neither. */
  function ParseSeconds(d: Option<int>, text: Bytes): Option<int> {
    var (s, remain, havens) := Cut(text, DOT);
    if s == [] then d
    else
      var d' := Plus(d, SECOND, ParseInt(s));
      if havens then Plus(d', NANOSECOND, ParseInt(remain)) else d'
  }

  /** What a text of the form H:MM:SS.SSSSSSSSS stands for; both colons are needed. */
  function Parsed(hms: Bytes): Option<int> {
    var (h, rest, ok) := Cut(hms, COLON);
    if !ok then None
    else
      var (m, seconds, ok') := Cut(rest, COLON);
      if !ok' then None
      else ParseSeconds(Plus(Plus(Some(0), HOUR, ParseInt(h)), MINUTE, ParseInt(m)), seconds)
  }

  /** parseHMSDuration; the inner ok of the program only guards the seconds and is not the one that is returned. */
  method ParseHMSDuration(hms: Bytes) returns (r: Option<int>)
    ensures r == Parsed(hms)
  {
    hide ParseInt, Cut, Wrap64;
    var d := 0;
    var (s, remain, ok) := Cut(hms, COLON);
    if ok {
      var n := ParseInt(s);
      if n.None? {
        return None;
      }
      d := Wrap64(d + Wrap64(HOUR * n.value));
      var (s', remain', ok') := Cut(remain, COLON);
      s, remain, ok := s', remain', ok';
    }
    if ok {
      var n := ParseInt(s);
      if n.None? {
        return None;
      }
      d := Wrap64(d + Wrap64(MINUTE * n.value));
      var (s', remain', havens) := Cut(remain, DOT);
      if |s'| > 0 {
        n := ParseInt(s');
        if n.None? {
          return None;
        }
        d := Wrap64(d + Wrap64(SECOND * n.value));
        if havens {
          n := ParseInt(remain');
          if n.None? {
            return None;
          }
          d := Wrap64(d + Wrap64(NANOSECOND * n.value));
        }
      }
    }
    r := if ok then Some(d) else None;
  }

  // ---------- What is parsed ----------

  /** A number as it may be written: a sign or none, zeros, and the digits. */
  function Spelled(sign: Bytes, zeros: nat, n: nat): Bytes { sign + (Zeros(zeros) + Digits(n)) }

  function Zeros(k: nat): (s: Bytes)
    ensures |s| == k && forall i | 0 <= i < k :: s[i] == ZERO
  {
    seq(k, _ => ZERO)
  }

  predicate Sign(sign: Bytes) { sign == [] || sign == [PLUS] || sign == [MINUS] }

  function Signed(sign: Bytes, n: nat): int { if sign == [MINUS] then -(n as int) else n }

  lemma {:induction false} NumberOfZeros(zeros: nat, n: nat)
    ensures Number(Zeros(zeros) + Digits(n)) == n
  {
    var s := Zeros(zeros) + Digits(n);
    if n >= 10 {
      NumberOfZeros(zeros, n / 10);
      assert s[..|s| - 1] == Zeros(zeros) + Digits(n / 10);
    } else {
      NumberOfNothing(zeros);
      assert s[..|s| - 1] == Zeros(zeros);
    }
  }

  lemma {:induction false} NumberOfNothing(zeros: nat)
    ensures Number(Zeros(zeros)) == 0
  {
    if zeros > 0 {
      NumberOfNothing(zeros - 1);
      assert Zeros(zeros)[..zeros - 1] == Zeros(zeros - 1);
    }
  }

  /** Every such spelling is read, unless it leaves 32 bits. */
  lemma SpelledParses(sign: Bytes, zeros: nat, n: nat)
    requires Sign(sign)
    ensures ParseInt(Spelled(sign, zeros, n)) == if InInt32(Signed(sign, n)) then Some(Signed(sign, n)) else None
  {
    hide Number;
    var s, digits := Spelled(sign, zeros, n), Zeros(zeros) + Digits(n);
    NumberOfZeros(zeros, n);
    assert IsDigit(digits[0]);
    assert s == if sign == [] then digits else [sign[0]] + digits;
    assert sign != [] ==> s[1..] == digits;
  }

  lemma {:induction false} DigitsOf(digits: Bytes) returns (zeros: nat)
    requires digits != [] && AllDigits(digits)
    ensures digits == Zeros(zeros) + Digits(Number(digits))
    decreases |digits|
  {
    hide Digits;
    var k := |digits| - 1;
    var front, d := digits[..k], digits[k] - ZERO;
    assert digits == front + [ZERO + d];
    LastDigit(Number(front), d);
    if k == 0 {
      zeros := 0;
      assert Number(front) == 0 && front == Zeros(0);
    } else {
      zeros := DigitsOf(front);
      if Number(front) == 0 {
        zeros := zeros + 1;
        assert front == Zeros(zeros);
      } else {
        assert digits == Zeros(zeros) + (Digits(Number(front)) + [ZERO + d]);
      }
    }
  }

  lemma LastDigit(n: nat, d: nat)
    requires d < 10
    ensures Digits(10 * n + d) == if n == 0 then [ZERO + d] else Digits(n) + [ZERO + d]
    ensures Digits(0) == [ZERO]
  {
    assert (10 * n + d) / 10 == n && (10 * n + d) % 10 == d;
  }

  /** And nothing else is. */
  lemma ParsesSpelled(s: Bytes)
    requires ParseInt(s).Some?
    ensures exists sign, zeros, n :: Sign(sign) && s == Spelled(sign, zeros, n)
  {
    var sign := if s[0] == MINUS || s[0] == PLUS then [s[0]] else [];
    var digits := if s != [] && (s[0] == MINUS || s[0] == PLUS) then s[1..] else s;
    var zeros := DigitsOf(digits);
    assert s == sign + digits == Spelled(sign, zeros, Number(digits));
  }

  /** Sums and products modulo 64 bits. */
  lemma WrapSum(a: int, b: int)
    ensures Wrap64(Wrap64(a) + Wrap64(b)) == Wrap64(a + b)
  {
    var half, whole := 0x8000_0000_0000_0000, 0x1_0000_0000_0000_0000;
    var qa, qb := (a + half) / whole, (b + half) / whole;
    assert Wrap64(a) == a - qa * whole && Wrap64(b) == b - qb * whole;
    Turns(a + b + half, -qa - qb, whole);
  }

  lemma Turns(x: int, k: int, m: int)
    requires m > 0
    ensures (x + k * m) % m == x % m
  {
    var q, r := x / m, x % m;
    assert x + k * m == (q + k) * m + r;
    Remainder(x + k * m, q + k, r, m);
  }

  lemma Remainder(x: int, q: int, r: int, m: int)
    requires x == q * m + r && 0 <= r < m
    ensures x % m == r
  {
    var q', r' := x / m, x % m;
    if q' > q {
      Apart(q', q, m);
    } else if q > q' {
      Apart(q, q', m);
    }
  }

  /** The nanoseconds the fields make up, as far as 64 bits hold them. */
  function Total(h: int, m: int, s: int, ns: int): (d: int)
    ensures InInt64(h * HOUR + m * MINUTE + s * SECOND + ns) ==> d == h * HOUR + m * MINUTE + s * SECOND + ns
  {
    Wrap64(h * HOUR + m * MINUTE + s * SECOND + ns)
  }

  lemma TotalSteps(h: int, m: int, s: int, ns: int)
    ensures var hm := Plus(Plus(Some(0), HOUR, Some(h)), MINUTE, Some(m));
            var hms := Plus(hm, SECOND, Some(s));
            && hm == Some(Total(h, m, 0, 0)) && hms == Some(Total(h, m, s, 0))
            && Plus(hms, NANOSECOND, Some(ns)) == Some(Total(h, m, s, ns))
  {
    var x, y, z := h * HOUR, m * MINUTE, s * SECOND;
    WrapTwice(0, x);
    WrapTwice(x, y);
    WrapTwice(x + y, z);
    WrapTwice(x + y + z, ns);
    hide Wrap64;
  }

  lemma WrapTwice(a: int, b: int)
    ensures Wrap64(Wrap64(a) + Wrap64(b)) == Wrap64(a + b)
    ensures Wrap64(0) == 0
  {
    WrapSum(a, b);
  }

  /** Hours and minutes, without seconds. */
  function Clock(a: Bytes, b: Bytes): Bytes { a + [COLON] + (b + [COLON]) }

  lemma ClockParts(a: Bytes, b: Bytes, rest: Bytes)
    requires COLON !in a && COLON !in b
    ensures Parsed(Clock(a, b) + rest) == ParseSeconds(Plus(Plus(Some(0), HOUR, ParseInt(a)), MINUTE, ParseInt(b)), rest)
  {
    hide ParseInt, Cut;
    var tail := b + [COLON] + rest;
    assert Clock(a, b) + rest == a + [COLON] + tail;
    CutAt(a, COLON, tail);
    CutAt(b, COLON, rest);
  }

  lemma {:induction false} CutNothing(s: Bytes, sep: byte)
    requires sep !in s
    ensures Cut(s, sep) == (s, [], false)
    decreases |s|
  {
    if s != [] {
      CutNothing(s[1..], sep);
      assert s == [s[0]] + s[1..];
    }
  }

  predicate AllParse(fields: seq<Bytes>) { forall f | f in fields :: ParseInt(f).Some? }

  /**
    What a text of hours a, minutes b, seconds c and nanoseconds e stands for, in 64 bits, when these are
    numbers; when one that is needed is none, the text is refused.  Seconds and nanoseconds may be missing,
    and without seconds what stands after the dot is ignored.
   */
  lemma ClockParses(a: Bytes, b: Bytes, c: Bytes, e: Bytes)
    requires COLON !in a && COLON !in b && DOT !in c
    ensures var hm := AllParse([a, b]);
            var h, m := ParseInt(a), ParseInt(b);
            && Parsed(Clock(a, b)) == Parsed(Clock(a, b) + ([DOT] + e))
            && Parsed(Clock(a, b)) == (if hm then Some(Total(h.value, m.value, 0, 0)) else None)
            && (c != [] ==>
                  && Parsed(Clock(a, b) + c)
                     == (if AllParse([a, b, c]) then Some(Total(h.value, m.value, ParseInt(c).value, 0)) else None)
                  && Parsed(Clock(a, b) + (c + [DOT] + e))
                     == (if AllParse([a, b, c, e])
                         then Some(Total(h.value, m.value, ParseInt(c).value, ParseInt(e).value)) else None))
  {
    hide ParseInt, Parsed, Total, Cut;
    Needed(a, b, c, e);
    assert Clock(a, b) + [] == Clock(a, b);
    ClockParts(a, b, []);
    ClockParts(a, b, [DOT] + e);
    ClockParts(a, b, c);
    ClockParts(a, b, c + [DOT] + e);
    SecondsCut(c, e);
    if AllParse([a, b]) {
      TotalSteps(ParseInt(a).value, ParseInt(b).value, 0, 0);
    }
    if AllParse([a, b, c]) {
      TotalSteps(ParseInt(a).value, ParseInt(b).value, ParseInt(c).value, if ParseInt(e).Some? then ParseInt(e).value else 0);
    }
  }

  lemma Needed(a: Bytes, b: Bytes, c: Bytes, e: Bytes)
    ensures AllParse([a, b]) <==> ParseInt(a).Some? && ParseInt(b).Some?
    ensures AllParse([a, b, c]) <==> AllParse([a, b]) && ParseInt(c).Some?
    ensures AllParse([a, b, c, e]) <==> AllParse([a, b, c]) && ParseInt(e).Some?
  {
    hide ParseInt;
    assert forall f :: f in [a, b] <==> f == a || f == b;
    assert forall f :: f in [a, b, c] <==> f == a || f == b || f == c;
    assert forall f :: f in [a, b, c, e] <==> f == a || f == b || f == c || f == e;
  }

  lemma SecondsCut(c: Bytes, e: Bytes)
    requires DOT !in c
    ensures Cut([], DOT) == ([], [], false) && Cut([DOT] + e, DOT) == ([], e, true)
    ensures Cut(c, DOT) == (c, [], false) && Cut(c + [DOT] + e, DOT) == (c, e, true)
  {
    CutNothing(c, DOT);
    CutAt(c, DOT, e);
  }

  predicate TwoColons(s: Bytes) { exists i, j :: 0 <= i < j < |s| && s[i] == COLON && s[j] == COLON }

  /** Fewer than two colons are not enough; with two, the text is one of hours, minutes and the rest. */
  lemma ColonsNeeded(hms: Bytes)
    ensures Parsed(hms).Some? ==> TwoColons(hms)
    ensures TwoColons(hms) ==> exists a, b, rest :: COLON !in a && COLON !in b && hms == Clock(a, b) + rest
  {
    hide ParseInt, Cut, TwoColons;
    CutPlace(hms, COLON);
    var (h, rest, ok) := Cut(hms, COLON);
    CutPlace(rest, COLON);
    var (m, seconds, ok') := Cut(rest, COLON);
    if ok && ok' {
      ClockColons(h, m, seconds);
      assert hms == Clock(h, m) + seconds;
    } else {
      var a, b := if ok then h else hms, if ok then rest else [];
      OneColon(a, b);
      assert hms == if ok then a + [COLON] + b else a;
    }
  }

  lemma ClockColons(a: Bytes, b: Bytes, rest: Bytes)
    ensures TwoColons(Clock(a, b) + rest)
  {
    var s := Clock(a, b) + rest;
    assert s[|a|] == COLON && s[|a| + 1 + |b|] == COLON;
  }

  lemma OneColon(a: Bytes, b: Bytes)
    requires COLON !in a && COLON !in b
    ensures !TwoColons(a) && !TwoColons(a + [COLON] + b)
  {
    var s := a + [COLON] + b;
    assert forall i | 0 <= i < |s| && s[i] == COLON :: i == |a|;
  }

  lemma {:induction false} CutPlace(s: Bytes, sep: byte)
    ensures var (before, after, found) := Cut(s, sep);
            sep !in before && s == (if found then before + [sep] + after else before)
    decreases |s|
  {
    if s != [] && s[0] != sep {
      CutPlace(s[1..], sep);
    }
  }

  // ---------- Round trip ----------

  /** No field leaves 32 bits and no product or partial sum leaves 64. */
  lemma NoOverflow(f: Fields, d: int)
    requires InInt64(d) && FieldsOf(f, d)
    ensures InInt32(f.h) && InInt32(f.m) && InInt32(f.s) && InInt32(f.ns)
    ensures InInt64(f.h * HOUR) && InInt64(f.m * MINUTE) && InInt64(f.s * SECOND)
    ensures InInt64(f.h * HOUR + f.m * MINUTE) && InInt64(f.h * HOUR + f.m * MINUTE + f.s * SECOND)
  {}

  /** Every int64 duration, negatives and the least one included, is what its text stands for. */
  lemma DurationRoundTrip(f: Fields, d: int)
    requires InInt64(d) && FieldsOf(f, d)
    ensures Parsed(Text(f)) == Some(d)
  {
    hide ParseInt, Padded, Decimal, Cut;
    NoOverflow(f, d);
    ParsePadded(f.h);
    ParsePadded(f.m);
    ParsePadded(f.s);
    ParseDecimal(f.ns);
    NoSeparator(f.h, COLON);
    NoSeparator(f.m, COLON);
    NoSeparator(f.s, DOT);
    var seconds := Padded(f.s) + [DOT] + Decimal(f.ns);
    CutAt(Padded(f.h), COLON, Padded(f.m) + [COLON] + seconds);
    CutAt(Padded(f.m), COLON, seconds);
    CutAt(Padded(f.s), DOT, Decimal(f.ns));
    SomeDigits(f.s);
  }

  lemma SomeDigits(n: int)
    ensures Padded(n) != []
  {}

  // ---------- The formatter ----------

  /** formatDuration: the text of the duration's fields, which parses back to the duration. */
  method FormatDuration(d: int) returns (text: Bytes)
    requires InInt64(d)
    ensures exists f :: FieldsOf(f, d) && text == Text(f)
    ensures Parsed(text) == Some(d)
  {
    var ms := d;
    var s := Quotient(ms, 1000000000);
    ms := ms - s * 1000000000;
    var m := Quotient(s, 60);
    s := s - m * 60;
    var h := Quotient(m, 60);
    m := m - h * 60;
    text := Padded(h) + [COLON] + (Padded(m) + [COLON] + (Padded(s) + [DOT] + Decimal(ms)));
    ghost var f := Fields(h, m, s, ms);
    assert FieldsOf(f, d) && text == Text(f);
    DurationRoundTrip(f, d);
  }
}
