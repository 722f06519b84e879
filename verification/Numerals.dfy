/** The notation of decimal numbers, and that the tokenizer reads exactly these. */
module Numerals {
  import opened Utf8
  import opened Lookahead
  import opened Tokenize
  import opened Runes

  // ---------- The notation ----------

  predicate DigitOrUnderscore(c: rune) { IsDigit(c) || c == UNDERSCORE }

  /** A digit, then digits and underscores. */
  predicate DigitsText(s: Bytes) {
    s != [] && IsDigit(s[0]) && forall i | 0 <= i < |s| :: DigitOrUnderscore(s[i])
  }

  /** Digits with a sign before them or none. */
  predicate SignedText(s: Bytes) {
    DigitsText(s) || (s != [] && (s[0] == '+' as int || s[0] == '-' as int) && DigitsText(s[1..]))
  }

  /** A point and digits, or nothing. */
  predicate FractionText(s: Bytes) {
    s == [] || (s[0] == '.' as int && DigitsText(s[1..]))
  }

  /** The letter e and a signed integer, or nothing. */
  predicate ExponentText(s: Bytes) {
    s == [] || ((s[0] == 'e' as int || s[0] == 'E' as int) && SignedText(s[1..]))
  }

  /** A decimal number: a sign or none, digits with underscores, a fraction or none, an exponent or none. */
  predicate IsNumber(s: Bytes) {
    exists i, j | 0 <= i <= j <= |s| :: SignedText(s[..i]) && FractionText(s[i..j]) && ExponentText(s[j..])
  }

  // ---------- What is read is in the notation ----------

  lemma {:induction false} RunOfDigits(s: Bytes, i: nat)
    ensures var n := RunLength(s, i, Digits());
            && (forall k | 0 <= k < n :: DigitOrUnderscore(s[k]))
            && (i == 0 && n > 0 ==> IsDigit(s[0]))
    decreases |s|
  {
    hide Decode;
    if Peek(s).Rune? && Digits()(i, Peek(s).c) {
      RunOfDigits(s[1..], i + 1);
      var n := RunLength(s[1..], i + 1, Digits());
      forall k | 0 <= k < 1 + n ensures DigitOrUnderscore(s[k]) {
        assert k > 0 ==> s[k] == s[1..][k - 1];
      }
    }
  }

  lemma IntegerReads(s: Bytes)
    ensures Integer(s).Got? ==> DigitsText(s[..Integer(s).n])
  {
    hide RunLength, Peek;
    RunOfDigits(s, 0);
  }

  lemma SignedReads(s: Bytes)
    ensures SignedInteger(s).Got? ==> SignedText(s[..SignedInteger(s).n])
  {
    hide Integer, Decode, DigitsText;
    var r := SignedInteger(s);
    if r.Got? {
      if IsSign(Peek(s).c) {
        IntegerReads(s[1..]);
        assert s[..r.n][1..] == s[1..][..r.n - 1] && s[..r.n][0] == s[0];
      } else {
        IntegerReads(s);
      }
    }
  }

  lemma FractionReads(s: Bytes)
    ensures Fraction(s).Got? ==> FractionText(s[..Fraction(s).n])
  {
    hide Integer, Decode, DigitsText;
    var r := Fraction(s);
    if r.Got? && r.n > 0 {
      IntegerReads(s[1..]);
      assert s[..r.n][1..] == s[1..][..r.n - 1] && s[..r.n][0] == s[0];
    }
  }

  lemma ExponentReads(s: Bytes)
    ensures Exponent(s).Got? ==> ExponentText(s[..Exponent(s).n])
  {
    hide SignedInteger, Decode, SignedText;
    var r := Exponent(s);
    if r.Got? && r.n > 0 {
      SignedReads(s[1..]);
      assert s[..r.n][1..] == s[1..][..r.n - 1] && s[..r.n][0] == s[0];
    }
  }

  lemma NumeralReads(s: Bytes)
    requires Numeral(s) == Got(|s|)
    ensures IsNumber(s)
  {
    hide SignedInteger, Fraction, Exponent, SignedText, FractionText, ExponentText;
    var i, j := SignedInteger(s).n, Mantissa(s).n;
    SignedReads(s);
    FractionReads(s[i..]);
    ExponentReads(s[j..]);
    assert s[i..][..j - i] == s[i..j];
    assert s[j..][..|s| - j] == s[j..];
  }

  // ---------- What is in the notation is read ----------

  /** What follows digits without going on with them. */
  predicate EndsDigits(t: Bytes) { t != [] ==> t[0] < 0x80 && !DigitOrUnderscore(t[0]) }

  lemma {:induction false} DigitsAreRun(d: Bytes, t: Bytes, i: nat)
    requires (forall k | 0 <= k < |d| :: DigitOrUnderscore(d[k])) && (i == 0 && d != [] ==> IsDigit(d[0])) && EndsDigits(t)
    ensures RunLength(d + t, i, Digits()) == |d|
    decreases |d|
  {
    hide Decode;
    if d == [] {
      assert d + t == t;
    } else {
      assert (d + t)[1..] == d[1..] + t && (d + t)[0] == d[0];
      forall k | 0 <= k < |d| - 1 ensures DigitOrUnderscore(d[1..][k]) {
        assert d[1..][k] == d[k + 1];
      }
      DigitsAreRun(d[1..], t, i + 1);
    }
  }

  lemma IntegerOf(d: Bytes, t: Bytes)
    requires DigitsText(d) && EndsDigits(t)
    ensures Integer(d + t) == Got(|d|)
  {
    hide RunLength, Decode;
    DigitsAreRun(d, t, 0);
    assert (d + t)[|d|..] == t;
  }

  lemma SignedOf(s: Bytes, t: Bytes)
    requires SignedText(s) && EndsDigits(t)
    ensures SignedInteger(s + t) == Got(|s|)
  {
    hide Integer, Decode;
    assert (s + t)[0] == s[0] && (s + t)[1..] == s[1..] + t;
    if DigitsText(s) {
      IntegerOf(s, t);
    } else {
      IntegerOf(s[1..], t);
    }
  }

  lemma FractionOf(s: Bytes, t: Bytes)
    requires FractionText(s) && EndsDigits(t) && (t != [] ==> t[0] != '.' as int)
    ensures Fraction(s + t) == Got(|s|)
  {
    hide Integer, Decode;
    if s == [] {
      assert s + t == t;
    } else {
      assert (s + t)[0] == s[0] && (s + t)[1..] == s[1..] + t;
      IntegerOf(s[1..], t);
    }
  }

  lemma ExponentOf(s: Bytes)
    requires ExponentText(s)
    ensures Exponent(s) == Got(|s|) && EndsDigits(s)
  {
    hide SignedInteger, Decode;
    if s != [] {
      SignedOf(s[1..], []);
      assert s[1..] + [] == s[1..];
    }
  }

  lemma NumberIsRead(s: Bytes, i: nat, j: nat)
    requires i <= j <= |s| && SignedText(s[..i]) && FractionText(s[i..j]) && ExponentText(s[j..])
    ensures Numeral(s) == Got(|s|)
  {
    hide SignedInteger, Fraction, Exponent, SignedText;
    ExponentOf(s[j..]);
    FractionOf(s[i..j], s[j..]);
    assert s[i..] == s[i..j] + s[j..];
    assert s[i..] != [] && i < j ==> s[i..][0] == s[i..j][0];
    SignedOf(s[..i], s[i..]);
    assert s == s[..i] + s[i..];
    assert Mantissa(s) == Got(j);
  }

  /** The reader of numbers takes the whole of a text exactly when it is a decimal number. */
  lemma NumeralGrammar(s: Bytes)
    ensures Numeral(s) == Got(|s|) <==> IsNumber(s)
  {
    hide Numeral, SignedText, FractionText, ExponentText;
    if Numeral(s) == Got(|s|) {
      NumeralReads(s);
    }
    if IsNumber(s) {
      var i, j :| 0 <= i <= j <= |s| && SignedText(s[..i]) && FractionText(s[i..j]) && ExponentText(s[j..]);
      NumberIsRead(s, i, j);
    }
  }
}
