/**
 * Digit strings, the 64-bit signed integer range, and the textual integer
 * formats the binding generator reads and writes: decimal with an optional
 * sign, and hexadecimal read as an unsigned 64-bit pattern and reinterpreted
 * as a two's-complement `long`.
 */
module Numerals {
  import opened Results

  const TwoTo63: int := 0x8000_0000_0000_0000
  const TwoTo64: int := 0x1_0000_0000_0000_0000

  /** `long.MinValue` and `long.MaxValue`. */
  const LongMin: int := -TwoTo63
  const LongMax: int := TwoTo63 - 1

  predicate InLongRange(v: int) {
    LongMin <= v <= LongMax
  }

  // ---------------------------------------------------------------------------
  // Digits
  // ---------------------------------------------------------------------------

  predicate IsHexDigit(c: char) {
    ('0' <= c <= '9') || ('a' <= c <= 'f') || ('A' <= c <= 'F')
  }

  /** Value of a hexadecimal digit; upper and lower case letters agree. */
  function DigitValue(c: char): (d: nat)
    requires IsHexDigit(c)
    ensures d < 16
    ensures d == 0 <==> c == '0'
  {
    if '0' <= c <= '9' then c as int - '0' as int
    else if 'a' <= c <= 'f' then c as int - 'a' as int + 10
    else c as int - 'A' as int + 10
  }

  /** The digit a printer emits for `d`: `0`-`9`, then lower-case `a`-`f`. */
  function DigitChar(d: nat): (c: char)
    requires d < 16
    ensures IsHexDigit(c) && DigitValue(c) == d
    ensures d < 10 ==> '0' <= c <= '9'
  {
    if d < 10 then ('0' as int + d) as char else ('a' as int + d - 10) as char
  }

  predicate IsDigitIn(c: char, base: nat) {
    IsHexDigit(c) && DigitValue(c) < base
  }

  predicate AllDigits(s: string, base: nat) {
    forall i :: 0 <= i < |s| ==> IsDigitIn(s[i], base)
  }

  /** Positional value of a digit string, most significant digit first. */
  function ValueOf(s: string, base: nat): nat
    requires AllDigits(s, base)
  {
    if |s| == 0 then 0 else ValueOf(s[..|s| - 1], base) * base + DigitValue(s[|s| - 1])
  }

  /** The shortest digit string for `n` (lower-case letters), as `ToString()` and `ToString("x")` print it. */
  function Numeral(n: nat, base: nat): string
    requires 2 <= base <= 16
    decreases n
  {
    if n < base then [DigitChar(n)] else Numeral(n / base, base) + [DigitChar(n % base)]
  }

  /** A digit string exactly as `Numeral` would print it: no leading zero, lower-case letters. */
  predicate Canonical(s: string, base: nat) {
    && |s| > 0
    && AllDigits(s, base)
    && (|s| == 1 || s[0] != '0')
    && forall i :: 0 <= i < |s| ==> s[i] == DigitChar(DigitValue(s[i]))
  }

  lemma {:induction false} NumeralIsCanonical(n: nat, base: nat)
    requires 2 <= base <= 16
    ensures Canonical(Numeral(n, base), base)
    ensures ValueOf(Numeral(n, base), base) == n
    decreases n
  {
    var s := Numeral(n, base);
    if n >= base {
      var q, r := n / base, n % base;
      DivModSplit(n, base);
      var p := Numeral(q, base);
      NumeralIsCanonical(q, base);
      assert s == p + [DigitChar(r)];
      assert s[..|s| - 1] == p;
      assert s[0] == p[0];
      assert ValueOf(s, base) == q * base + r;
      if |p| == 1 {
        assert q == ValueOf(p, base) == DigitValue(p[0]);
        assert p[0] != '0';
      }
    }
  }

  lemma DivModSplit(n: nat, base: nat)
    requires 2 <= base <= n
    ensures n == (n / base) * base + n % base
    ensures 1 <= n / base < n && n % base < base
  {
  }

  lemma {:induction false} LeadingNonZeroIsPositive(s: string, base: nat)
    requires |s| > 0 && AllDigits(s, base) && s[0] != '0' && base >= 1
    ensures ValueOf(s, base) > 0
    decreases |s|
  {
    var p := s[..|s| - 1];
    if |p| > 0 {
      assert p[0] == s[0];
      LeadingNonZeroIsPositive(p, base);
    }
  }

  /** Printing the value of a canonical digit string gives that string back. */
  lemma {:induction false} CanonicalRoundTrip(s: string, base: nat)
    requires 2 <= base <= 16 && Canonical(s, base)
    ensures Numeral(ValueOf(s, base), base) == s
    decreases |s|
  {
    var p := s[..|s| - 1];
    var d := DigitValue(s[|s| - 1]);
    if |s| == 1 {
      assert ValueOf(s, base) == d;
      assert s == [DigitChar(d)];
    } else {
      assert p[0] == s[0] != '0';
      LeadingNonZeroIsPositive(p, base);
      assert Canonical(p, base) by {
        forall i | 0 <= i < |p| ensures p[i] == DigitChar(DigitValue(p[i])) {
          assert p[i] == s[i];
        }
      }
      CanonicalRoundTrip(p, base);
      var n := ValueOf(s, base);
      var q := ValueOf(p, base);
      assert n == q * base + d;
      QuotientOfSplit(q, base, d);
      assert s == p + [s[|s| - 1]];
    }
  }

  lemma QuotientOfSplit(q: nat, base: nat, d: nat)
    requires q >= 1 && 2 <= base && d < base
    ensures q * base + d >= base
    ensures (q * base + d) / base == q && (q * base + d) % base == d
  {
    var n := q * base + d;
    var k, m := n / base, n % base;
    assert n == k * base + m && 0 <= m < base;
    assert (k - q) * base == d - m by {
      assert k * base - q * base == (k - q) * base;
    }
    if k - q >= 1 {
      MulAtLeast(k - q, base);
      assert false;
    } else if k - q <= -1 {
      MulAtLeast(q - k, base);
      assert false;
    }
    MulAtLeast(q, base);
  }

  lemma MulAtLeast(x: int, y: nat)
    requires x >= 1
    ensures x * y >= y
  {
    assert x * y == (x - 1) * y + y;
    assert (x - 1) * y >= 0;
  }

  /** Distinct numbers print as distinct numerals. */
  lemma NumeralInjective(m: nat, n: nat, base: nat)
    requires 2 <= base <= 16 && m != n
    ensures Numeral(m, base) != Numeral(n, base)
  {
    NumeralIsCanonical(m, base);
    NumeralIsCanonical(n, base);
  }

  // ---------------------------------------------------------------------------
  // 64-bit integer text
  // ---------------------------------------------------------------------------

  /** Two's-complement reinterpretation of an unsigned 64-bit pattern. */
  function ToSigned64(u: nat): (v: int)
    requires u < TwoTo64
    ensures InLongRange(v)
    ensures v >= 0 <==> u < TwoTo63
  {
    if u < TwoTo63 then u else u - TwoTo64
  }

  /** The unsigned 64-bit pattern of a `long`. */
  function ToUnsigned64(v: int): nat
    requires InLongRange(v)
  {
    if v < 0 then v + TwoTo64 else v
  }

  // ---------------------------------------------------------------------------
  // Trimming
  // ---------------------------------------------------------------------------

  /** `s.TrimStart(chars)`: drops every leading character that is in `chars`. */
  function TrimStart(s: string, chars: set<char>): (r: string)
    ensures |r| <= |s|
    ensures |r| == 0 || r[0] !in chars
  {
    if |s| > 0 && s[0] in chars then TrimStart(s[1..], chars) else s
  }

  /** `TrimStart` removes a prefix, all of whose characters are in `chars`. */
  lemma {:induction false} TrimStartIsSuffix(s: string, chars: set<char>)
    ensures TrimStart(s, chars) == s[|s| - |TrimStart(s, chars)|..]
    ensures forall i :: 0 <= i < |s| - |TrimStart(s, chars)| ==> s[i] in chars
  {
    if |s| > 0 && s[0] in chars {
      TrimStartIsSuffix(s[1..], chars);
    }
  }

  /** `s.TrimEnd(chars)`: drops every trailing character that is in `chars`. */
  function TrimEnd(s: string, chars: set<char>): (r: string)
    ensures |r| <= |s|
    ensures |r| == 0 || r[|r| - 1] !in chars
  {
    if |s| > 0 && s[|s| - 1] in chars then TrimEnd(s[..|s| - 1], chars) else s
  }

  /** `TrimEnd` removes a suffix, all of whose characters are in `chars`. */
  lemma {:induction false} TrimEndIsPrefix(s: string, chars: set<char>)
    ensures TrimEnd(s, chars) == s[..|TrimEnd(s, chars)|]
    ensures forall i :: |TrimEnd(s, chars)| <= i < |s| ==> s[i] in chars
  {
    if |s| > 0 && s[|s| - 1] in chars {
      TrimEndIsPrefix(s[..|s| - 1], chars);
    }
  }

  lemma TrimStartStep(s: string, chars: set<char>)
    requires |s| > 0 && s[0] in chars
    ensures TrimStart(s, chars) == TrimStart(s[1..], chars)
  {
  }

  lemma TrimStartStop(s: string, chars: set<char>)
    requires |s| == 0 || s[0] !in chars
    ensures TrimStart(s, chars) == s
  {
  }

  lemma TrimEndStep(s: string, chars: set<char>)
    requires |s| > 0 && s[|s| - 1] in chars
    ensures TrimEnd(s, chars) == TrimEnd(s[..|s| - 1], chars)
  {
  }

  lemma TrimEndStop(s: string, chars: set<char>)
    requires |s| == 0 || s[|s| - 1] !in chars
    ensures TrimEnd(s, chars) == s
  {
  }

  /** The white space the integer parsers skip before and after the number. */
  const NumberWhite: set<char> := {' ', '\t', '\n', 11 as char, 12 as char, '\r'}

  /** Both trims leave a string alone whose ends are not in `chars`. */
  lemma TrimUnchanged(s: string, chars: set<char>)
    requires |s| == 0 || (s[0] !in chars && s[|s| - 1] !in chars)
    ensures TrimEnd(TrimStart(s, chars), chars) == s
  {
  }

  // ---------------------------------------------------------------------------
  // Parsing
  // ---------------------------------------------------------------------------

  /** An optional leading `+` or `-` and at least one decimal digit, inside the `long` range. */
  function ParseSignedDecimal(s: string): Option<int> {
    var signed := |s| > 0 && (s[0] == '-' || s[0] == '+');
    var digits := if signed then s[1..] else s;
    if |digits| == 0 || !AllDigits(digits, 10) then None
    else
      var magnitude: int := ValueOf(digits, 10);
      var v := if signed && s[0] == '-' then -magnitude else magnitude;
      if InLongRange(v) then Some(v) else None
  }

  /**
   * `long.TryParse(s)` with the default integer style: white space around a
   * signed decimal number.
   */
  function ParseDecimalLong(s: string): (r: Option<int>)
    ensures r.Some? ==> InLongRange(r.value)
  {
    ParseSignedDecimal(TrimEnd(TrimStart(s, NumberWhite), NumberWhite))
  }

  /** At least one hex digit, no sign, value below 2^64, reinterpreted as a two's-complement `long`. */
  function ParseHexDigits(s: string): Option<int> {
    if |s| == 0 || !AllDigits(s, 16) then None
    else
      var u := ValueOf(s, 16);
      if u < TwoTo64 then Some(ToSigned64(u)) else None
  }

  /** `long.TryParse(s, NumberStyles.HexNumber, ...)`: white space around the hex digits. */
  function ParseHexLong(s: string): (r: Option<int>)
    ensures r.Some? ==> InLongRange(r.value)
  {
    ParseHexDigits(TrimEnd(TrimStart(s, NumberWhite), NumberWhite))
  }

  /** `long.ToString()`: minus sign, then the shortest decimal digits. */
  function DecimalText(v: int): string {
    if v < 0 then "-" + Numeral(-v, 10) else Numeral(v, 10)
  }

  /** `long.ToString("x")`: the shortest lower-case hex digits of the 64-bit pattern. */
  function HexText(v: int): string
    requires InLongRange(v)
  {
    Numeral(ToUnsigned64(v), 16)
  }

  /** Decimal text exactly as `DecimalText` prints it. */
  predicate CanonicalDecimal(s: string) {
    || Canonical(s, 10)
    || (|s| > 1 && s[0] == '-' && Canonical(s[1..], 10) && s[1..] != "0")
  }

  lemma DecimalRoundTrip(v: int)
    requires InLongRange(v)
    ensures ParseDecimalLong(DecimalText(v)) == Some(v)
    ensures CanonicalDecimal(DecimalText(v))
  {
    SignedDecimalRoundTrip(v);
    CanonicalDecimalIsTrimmed(DecimalText(v));
  }

  lemma SignedDecimalRoundTrip(v: int)
    requires InLongRange(v)
    ensures ParseSignedDecimal(DecimalText(v)) == Some(v)
    ensures CanonicalDecimal(DecimalText(v))
  {
    var s := DecimalText(v);
    if v < 0 {
      NumeralIsCanonical(-v, 10);
      assert s[1..] == Numeral(-v, 10);
      assert ValueOf("0", 10) == 0;
    } else {
      NumeralIsCanonical(v, 10);
      assert IsDigitIn(s[0], 10);
    }
  }

  lemma HexRoundTrip(v: int)
    requires InLongRange(v)
    ensures ParseHexLong(HexText(v)) == Some(v)
  {
    var s := HexText(v);
    NumeralIsCanonical(ToUnsigned64(v), 16);
    assert IsDigitIn(s[0], 16) && IsDigitIn(s[|s| - 1], 16);
    TrimUnchanged(s, NumberWhite);
  }

  /** Canonical decimal text starts with `-` or a digit and ends with a digit: trimming keeps it. */
  lemma CanonicalDecimalIsTrimmed(s: string)
    requires CanonicalDecimal(s)
    ensures TrimEnd(TrimStart(s, NumberWhite), NumberWhite) == s
  {
    if Canonical(s, 10) {
      assert IsDigitIn(s[0], 10) && IsDigitIn(s[|s| - 1], 10);
    } else {
      assert IsDigitIn(s[1..][|s| - 2], 10);
    }
    TrimUnchanged(s, NumberWhite);
  }

  /** Canonical decimal text inside the `long` range parses and prints back to itself. */
  lemma CanonicalDecimalRoundTrip(s: string)
    requires CanonicalDecimal(s) && ParseDecimalLong(s).Some?
    ensures DecimalText(ParseDecimalLong(s).value) == s
  {
    CanonicalDecimalIsTrimmed(s);
    CanonicalSignedRoundTrip(s);
  }

  lemma CanonicalSignedRoundTrip(s: string)
    requires CanonicalDecimal(s) && ParseSignedDecimal(s).Some?
    ensures DecimalText(ParseSignedDecimal(s).value) == s
  {
    if |s| > 1 && s[0] == '-' && Canonical(s[1..], 10) && s[1..] != "0" {
      var d := s[1..];
      if |d| == 1 {
        assert d == [d[0]];
      }
      LeadingNonZeroIsPositive(d, 10);
      CanonicalRoundTrip(d, 10);
      assert s == "-" + d;
    } else {
      assert IsDigitIn(s[0], 10);
      CanonicalRoundTrip(s, 10);
    }
  }

  /** Decimal digit strings contain no `x` or `X`. */
  lemma DecimalDigitsHaveNoX(s: string)
    requires AllDigits(s, 10)
    ensures forall i :: 0 <= i < |s| ==> s[i] != 'x' && s[i] != 'X'
  {
    forall i | 0 <= i < |s| ensures s[i] != 'x' && s[i] != 'X' {
      assert IsDigitIn(s[i], 10);
    }
  }
}
