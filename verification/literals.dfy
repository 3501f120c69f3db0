/**
 * `PrimitiveTypeExpression`: the literal folder. The text of a constant
 * expression becomes a typed literal (a `long` narrowed to the smallest
 * integer kind, a `double`, or a quoted string) that remembers the text it
 * came from, and prints back as target-language source.
 */
module Literals {
  import opened Results
  import opened Numerals
  import opened Ast

  /** The parsed value behind a literal; `real` stands for the parsed `double`. */
  datatype Value = IntValue(n: int) | DoubleValue(d: real) | StringValue(s: string)

  /** A literal: its kind (`Type`), parsed value, and the text it was parsed from (`DebugText`; `None` is `null`). */
  datatype Literal = Literal(kind: PrimitiveKind, value: Value, debugText: Option<string>)

  /** The outcome of `TryParseExpression`: the returned flag and its two out-parameters (`None` is `null`). */
  datatype Parse = Parse(ok: bool, kind: PrimitiveKind, value: Option<Value>)

  /** The exception `ToString` throws for a kind it cannot print. */
  datatype PrintError = ArgumentOutOfRange

  /** `double.TryParse(text, NumberStyles.Float, CultureInfo.InvariantCulture, ...)`, left abstract. */
  type DoubleParser = string -> Option<real>

  /** Invariant-culture formatting of a `double` (the `{0}` of `"{0}D"`), left abstract. */
  type DoubleFormatter = real -> string

  // ---------------------------------------------------------------------------
  // The integer ladder
  // ---------------------------------------------------------------------------

  predicate IsIntegerKind(k: PrimitiveKind) {
    k.Int8? || k.UInt8? || k.Int16? || k.UInt16? || k.Int32? || k.UInt32? || k.Int64? || k.UInt64?
  }

  /** `MinValue` of each integer kind. */
  function MinOf(k: PrimitiveKind): int
    requires IsIntegerKind(k)
  {
    match k
    case Int8 => -0x80
    case Int16 => -0x8000
    case Int32 => -0x8000_0000
    case Int64 => LongMin
    case _ => 0
  }

  /** `MaxValue` of each integer kind. */
  function MaxOf(k: PrimitiveKind): int
    requires IsIntegerKind(k)
  {
    match k
    case Int8 => 0x7F
    case UInt8 => 0xFF
    case Int16 => 0x7FFF
    case UInt16 => 0xFFFF
    case Int32 => 0x7FFF_FFFF
    case UInt32 => 0xFFFF_FFFF
    case Int64 => LongMax
    case _ => TwoTo64 - 1
  }

  /** The kinds the ladder tries, in order; `UInt64` is not among them. */
  const Rungs: seq<PrimitiveKind> := [Int8, UInt8, Int16, UInt16, Int32, UInt32, Int64]

  /** The ladder's test for one kind: at most its maximum and strictly above its minimum. */
  predicate FitsRung(v: int, k: PrimitiveKind)
    requires IsIntegerKind(k)
  {
    MinOf(k) < v <= MaxOf(k)
  }

  /** Position of a kind on the ladder. */
  function RungIndex(k: PrimitiveKind): (i: nat)
    requires k in Rungs
    ensures i < |Rungs| && Rungs[i] == k
  {
    if k == Int8 then 0 else if k == UInt8 then 1 else if k == Int16 then 2
    else if k == UInt16 then 3 else if k == Int32 then 4 else if k == UInt32 then 5 else 6
  }

  /**
   * `ConvertLongToSmallestIntegerType`: the first kind on the ladder whose
   * test accepts `v`, or `Void` when none does. The value itself is kept as
   * the `long`, whatever the kind.
   */
  function SmallestIntegerKind(v: int): (k: PrimitiveKind)
    requires InLongRange(v)
    ensures k == Void || k in Rungs
    ensures k != Void ==> FitsRung(v, k) && MinOf(k) <= v <= MaxOf(k)
    ensures k != Void ==> forall j :: 0 <= j < RungIndex(k) ==> !FitsRung(v, Rungs[j])
    ensures k == Void <==> forall j :: 0 <= j < |Rungs| ==> !FitsRung(v, Rungs[j])
    ensures k == Void <==> v == LongMin
    ensures v <= 0 ==> !(k.UInt8? || k.UInt16? || k.UInt32? || k.UInt64?)
  {
    if -0x80 < v <= 0x7F then Int8
    else if 0 < v <= 0xFF then UInt8
    else if -0x8000 < v <= 0x7FFF then Int16
    else if 0 < v <= 0xFFFF then UInt16
    else if -0x8000_0000 < v <= 0x7FFF_FFFF then Int32
    else if 0 < v <= 0xFFFF_FFFF then UInt32
    else if LongMin < v <= LongMax then Int64
    else Void
  }

  /** The ladder's edge cases: the exclusive lower bounds push each signed minimum one rung up. */
  lemma LadderEdges()
    ensures SmallestIntegerKind(0) == Int8
    ensures SmallestIntegerKind(-127) == Int8 && SmallestIntegerKind(-128) == Int16
    ensures SmallestIntegerKind(127) == Int8 && SmallestIntegerKind(128) == UInt8
    ensures SmallestIntegerKind(255) == UInt8 && SmallestIntegerKind(256) == Int16
    ensures SmallestIntegerKind(-32768) == Int32
    ensures SmallestIntegerKind(-0x8000_0000) == Int64
    ensures SmallestIntegerKind(LongMax) == Int64
    ensures SmallestIntegerKind(LongMin) == Void
    ensures forall v :: InLongRange(v) ==> SmallestIntegerKind(v) != UInt64
  {
  }

  // ---------------------------------------------------------------------------
  // Parsing
  // ---------------------------------------------------------------------------

  /** `StartsWith("0x", CurrentCultureIgnoreCase)`. */
  predicate HasHexPrefix(s: string) {
    |s| >= 2 && s[0] == '0' && (s[1] == 'x' || s[1] == 'X')
  }

  /** `ParseAsLong`: after a `0x` prefix, in either case, a hex parse of the rest; otherwise a decimal parse. */
  function ParseAsLong(s: string): (r: Option<int>)
    ensures r.Some? ==> InLongRange(r.value)
    ensures HasHexPrefix(s) ==> r == ParseHexLong(s[2..])
    ensures !HasHexPrefix(s) ==> r == ParseDecimalLong(s)
  {
    if HasHexPrefix(s) then ParseHexLong(s[2..]) else ParseDecimalLong(s)
  }

  /** The text the printer produces for a `long` reads back as that `long`, bare or behind either prefix spelling. */
  lemma ParseAsLongReadsPrinted(v: int)
    requires InLongRange(v)
    ensures ParseAsLong(DecimalText(v)) == Some(v)
    ensures ParseAsLong("0x" + HexText(v)) == Some(v)
    ensures ParseAsLong("0X" + HexText(v)) == Some(v)
  {
    DecimalRoundTrip(v);
    DecimalTextHasNoPrefix(v);
    HexRoundTrip(v);
    assert ("0x" + HexText(v))[2..] == HexText(v);
    assert ("0X" + HexText(v))[2..] == HexText(v);
  }

  /** Decimal text never starts with `0x`: its only numeral with a leading `0` is `0` itself. */
  lemma DecimalTextHasNoPrefix(v: int)
    requires InLongRange(v)
    ensures !HasHexPrefix(DecimalText(v))
  {
    DecimalRoundTrip(v);
    var s := DecimalText(v);
    if Canonical(s, 10) && |s| >= 2 {
      assert IsDigitIn(s[1], 10);
    }
  }

  /**
   * `StartsWith("\"")` and `EndsWith("\"")` read ordinally: the first and the
   * last character are double quotes. The .NET string overloads compare under
   * the current culture, which skips ignorable code points such as U+00AD;
   * that reading is not modelled.
   */
  predicate IsQuoted(s: string) {
    |s| > 0 && s[0] == '"' && s[|s| - 1] == '"'
  }

  /**
   * `ParseAsString`: text that starts and ends with a double quote loses
   * every leading and every trailing quote. A lone `"` both starts and ends
   * with one, so it yields the empty string.
   */
  function ParseAsString(s: string): (r: Option<string>)
    ensures r.Some? <==> IsQuoted(s)
    ensures r.Some? ==> |r.value| == 0 || (r.value[0] != '"' && r.value[|r.value| - 1] != '"')
  {
    if IsQuoted(s) then
      var u := TrimStart(s, {'"'});
      TrimEndIsPrefix(u, {'"'});
      Some(TrimEnd(u, {'"'}))
    else None
  }

  /** What `ParseAsString` keeps is an infix of the text with nothing but quotes around it. */
  lemma TrimmedQuotes(s: string)
    requires IsQuoted(s)
    ensures QuotedAt(s, ParseAsString(s).value, |s| - |TrimStart(s, {'"'})|)
  {
    var u := TrimStart(s, {'"'});
    var k := |s| - |u|;
    TrimStartIsSuffix(s, {'"'});
    TrimEndIsPrefix(u, {'"'});
    InfixOfTrimmed(s, u, TrimEnd(u, {'"'}), k);
  }

  lemma InfixOfTrimmed(s: string, u: string, t: string, k: nat)
    requires k <= |s| && u == s[k..] && |t| <= |u| && t == u[..|t|]
    requires forall i :: |t| <= i < |u| ==> u[i] in {'"'}
    requires forall i :: 0 <= i < k ==> s[i] in {'"'}
    ensures QuotedAt(s, t, k)
  {
    assert s[k..k + |t|] == t;
    forall i | k + |t| <= i < |s|
      ensures s[i] == '"'
    {
      assert s[i] == u[i - k];
    }
  }

  /** `s` is `t` with a run of quotes (possibly empty) before it and another after it, `t` starting at `k`. */
  predicate QuotedAt(s: string, t: string, k: int) {
    && 0 <= k <= |s| - |t|
    && s[k..k + |t|] == t
    && (forall i :: 0 <= i < k ==> s[i] == '"')
    && (forall i :: k + |t| <= i < |s| ==> s[i] == '"')
  }

  /** A lone quote, and a pair of quotes, both trim to the empty string. */
  lemma LoneQuotesTrimToEmpty()
    ensures ParseAsString("\"") == Some("")
    ensures ParseAsString("\"\"") == Some("")
  {
    var q := {'"'};
    var s1 := "\"";
    TrimStartStep(s1, q);
    assert s1[1..] == "";
    var s2 := "\"\"";
    TrimStartStep(s2, q);
    assert s2[1..] == s1;
  }

  /** Whole runs of outer quotes go; a quote inside the content stays. */
  lemma QuoteRunsTrimmed()
    ensures ParseAsString("\"\"a\"\"") == Some("a")
    ensures ParseAsString("\"a\"b\"") == Some("a\"b")
    ensures ParseAsString("\"a") == None
  {
    var q := {'"'};
    var s := "\"\"a\"\"";
    TrimStartStep(s, q);
    assert s[1..] == "\"a\"\"";
    TrimStartStep(s[1..], q);
    assert s[1..][1..] == "a\"\"";
    TrimStartStop("a\"\"", q);
    TrimEndStep("a\"\"", q);
    assert "a\"\""[..2] == "a\"";
    TrimEndStep("a\"", q);
    assert "a\""[..1] == "a";
    TrimEndStop("a", q);
    var w := "\"a\"b\"";
    TrimStartStep(w, q);
    assert w[1..] == "a\"b\"";
    TrimStartStop("a\"b\"", q);
    TrimEndStep("a\"b\"", q);
    assert "a\"b\""[..3] == "a\"b";
    TrimEndStop("a\"b", q);
  }

  /** `IsHexadecimal`: the recorded text exists and contains `0x` or `0X` somewhere. */
  predicate IsHexadecimal(debugText: Option<string>): (r: bool)
    ensures debugText.None? ==> !r
    ensures debugText.Some? ==> (r <==> HasHexMark(debugText.value))
  {
    if debugText.None? then false
    else
      PairContained(debugText.value, '0', 'x');
      PairContained(debugText.value, '0', 'X');
      Contains(debugText.value, "0x") || Contains(debugText.value, "0X")
  }

  /** Some character `0` is directly followed by `x` or `X`. */
  predicate HasHexMark(s: string) {
    exists i :: 0 <= i < |s| - 1 && s[i] == '0' && (s[i + 1] == 'x' || s[i + 1] == 'X')
  }

  lemma PairContained(s: string, a: char, b: char)
    ensures Contains(s, [a, b]) <==> exists i :: 0 <= i < |s| - 1 && s[i] == a && s[i + 1] == b
  {
    if Contains(s, [a, b]) {
      var i :| 0 <= i <= |s| - 2 && OccursAt(s, [a, b], i);
      assert s[i] == s[i..i + 2][0] && s[i + 1] == s[i..i + 2][1];
    }
    if exists i :: 0 <= i < |s| - 1 && s[i] == a && s[i + 1] == b {
      var i :| 0 <= i < |s| - 1 && s[i] == a && s[i + 1] == b;
      assert s[i..i + 2] == [a, b];
      assert OccursAt(s, [a, b], i);
    }
  }

  /** `s.Contains(part)`. */
  predicate Contains(s: string, part: string) {
    exists i | 0 <= i <= |s| - |part| :: OccursAt(s, part, i)
  }

  predicate OccursAt(s: string, part: string, i: int) {
    0 <= i <= |s| - |part| && s[i..i + |part|] == part
  }

  /** Decimal text never looks hexadecimal to the printer. */
  lemma DecimalTextIsNotHex(s: string)
    requires CanonicalDecimal(s)
    ensures !IsHexadecimal(Some(s))
  {
    var d := if Canonical(s, 10) then s else s[1..];
    DecimalDigitsHaveNoX(d);
    forall i | 0 <= i <= |s| - 2
      ensures !OccursAt(s, "0x", i) && !OccursAt(s, "0X", i)
    {
      assert s[i + 1] == s[i..i + 2][1];
      if !Canonical(s, 10) {
        assert s[i + 1] == d[i];
      }
    }
  }

  /**
   * `TryParseExpression`: integer first, then `double`, then quoted string;
   * when all three fail the flag is false, the kind `Void` and the value null.
   */
  function TryParseExpression(s: string, parseDouble: DoubleParser): (r: Parse)
    ensures r.ok <==> r.value.Some?
    ensures !r.ok ==> r.kind == Void
    ensures r.ok <==> ParseAsLong(s).Some? || parseDouble(s).Some? || ParseAsString(s).Some?
    ensures ParseAsLong(s).Some? ==>
      r.value == Some(IntValue(ParseAsLong(s).value)) && r.kind == SmallestIntegerKind(ParseAsLong(s).value)
    ensures ParseAsLong(s).None? && parseDouble(s).Some? ==>
      r == Parse(true, Double, Some(DoubleValue(parseDouble(s).value)))
    ensures ParseAsLong(s).None? && parseDouble(s).None? && ParseAsString(s).Some? ==>
      r == Parse(true, WideChar, Some(StringValue(ParseAsString(s).value)))
    ensures r.ok ==> WellFormed(Literal(r.kind, r.value.value, Some(s)))
  {
    match ParseAsLong(s)
    case Some(v) => Parse(true, SmallestIntegerKind(v), Some(IntValue(v)))
    case None =>
      match parseDouble(s)
      case Some(d) => Parse(true, Double, Some(DoubleValue(d)))
      case None =>
        match ParseAsString(s)
        case Some(t) => Parse(true, WideChar, Some(StringValue(t)))
        case None => Parse(false, Void, None)
  }

  /**
   * The kind and value agree, as every constructor leaves them: a string for
   * `WideChar`, a `double` for `Double`, otherwise a `long` whose ladder kind
   * is the literal's kind (which is `Void` for `long.MinValue`).
   */
  predicate WellFormed(lit: Literal) {
    match lit.kind
    case WideChar => lit.value.StringValue?
    case Double => lit.value.DoubleValue?
    case _ => lit.value.IntValue? && InLongRange(lit.value.n) && lit.kind == SmallestIntegerKind(lit.value.n)
  }

  /** `TryCreate`: `null` exactly when the text does not parse; otherwise the parse, remembering the text. */
  function TryCreate(s: string, parseDouble: DoubleParser): (r: Option<Literal>)
    ensures r.None? <==> ParseAsLong(s).None? && parseDouble(s).None? && ParseAsString(s).None?
    ensures r.Some? ==>
      var p := TryParseExpression(s, parseDouble);
      && r.value == Literal(p.kind, p.value.value, Some(s))
      && WellFormed(r.value)
  {
    var p := TryParseExpression(s, parseDouble);
    if p.ok then Some(Literal(p.kind, p.value.value, Some(s))) else None
  }

  /** The `long` constructor: ladder kind, unchanged value, no text. */
  function FromLong(v: int): (r: Literal)
    requires InLongRange(v)
    ensures WellFormed(r) && r.value == IntValue(v) && r.debugText.None?
    ensures r.kind == Void <==> v == LongMin
  {
    Literal(SmallestIntegerKind(v), IntValue(v), None)
  }

  /** The `double` constructor. */
  function FromDouble(d: real): (r: Literal)
    ensures WellFormed(r) && r.kind == Double && r.value == DoubleValue(d) && r.debugText.None?
  {
    Literal(Double, DoubleValue(d), None)
  }

  // ---------------------------------------------------------------------------
  // Printing
  // ---------------------------------------------------------------------------

  /**
   * `ToString`: strings are re-quoted, doubles get a `D` suffix, integer
   * kinds print the `long` in decimal, or as bare lower-case two's-complement
   * hex when the recorded text contains `0x`/`0X`; any other kind throws.
   */
  function ToString(lit: Literal, formatDouble: DoubleFormatter): (r: Result<string, PrintError>)
    requires WellFormed(lit)
    ensures r.Failure? <==> lit.kind == Void
    ensures r.Failure? <==> lit.value == IntValue(LongMin)
    ensures lit.kind == WideChar ==> r == Success("\"" + lit.value.s + "\"")
    ensures lit.kind == Double ==> r == Success(formatDouble(lit.value.d) + "D")
    ensures r.Success? && lit.value.IntValue? && IsHexadecimal(lit.debugText) ==>
      Canonical(r.value, 16) && ParseHexLong(r.value) == Some(lit.value.n)
    ensures r.Success? && lit.value.IntValue? && !IsHexadecimal(lit.debugText) ==>
      CanonicalDecimal(r.value) && ParseDecimalLong(r.value) == Some(lit.value.n)
  {
    if lit.kind == WideChar then Success("\"" + lit.value.s + "\"")
    else if lit.kind == Double then Success(formatDouble(lit.value.d) + "D")
    else if IsIntegerKind(lit.kind) then Success(PrintLong(lit.value.n, IsHexadecimal(lit.debugText)))
    else Failure(ArgumentOutOfRange)
  }

  /** `((long) value).ToString(hex ? "x" : "")`: the text reads back as the same `long`, in the base it was printed in. */
  function PrintLong(n: int, hex: bool): (r: string)
    requires InLongRange(n)
    ensures hex ==> Canonical(r, 16) && ParseHexLong(r) == Some(n)
    ensures !hex ==> CanonicalDecimal(r) && ParseDecimalLong(r) == Some(n)
  {
    if hex then
      NumeralIsCanonical(ToUnsigned64(n), 16);
      HexRoundTrip(n);
      HexText(n)
    else
      DecimalRoundTrip(n);
      DecimalText(n)
  }

  // ---------------------------------------------------------------------------
  // Round trips
  // ---------------------------------------------------------------------------

  /** Canonical decimal text of any `long` but the minimum parses, then prints back to itself. */
  lemma DecimalLiteralRoundTrip(s: string, parseDouble: DoubleParser, formatDouble: DoubleFormatter)
    requires CanonicalDecimal(s) && ParseDecimalLong(s).Some? && ParseDecimalLong(s).value != LongMin
    ensures TryCreate(s, parseDouble).Some?
    ensures ToString(TryCreate(s, parseDouble).value, formatDouble) == Success(s)
  {
    var v := ParseDecimalLong(s).value;
    CanonicalDecimalRoundTrip(s);
    DecimalTextHasNoPrefix(v);
    DecimalTextIsNotHex(s);
    assert ParseAsLong(s) == Some(v);
    var lit := Literal(SmallestIntegerKind(v), IntValue(v), Some(s));
    assert TryCreate(s, parseDouble) == Some(lit);
    var r := ToString(lit, formatDouble).value;
    assert CanonicalDecimal(r) && ParseDecimalLong(r) == Some(v);
    CanonicalDecimalRoundTrip(r);
  }

  /** A quoted string whose content neither starts nor ends with a quote prints back to itself. */
  lemma QuotedLiteralRoundTrip(t: string, parseDouble: DoubleParser, formatDouble: DoubleFormatter)
    requires |t| == 0 || (t[0] != '"' && t[|t| - 1] != '"')
    requires parseDouble("\"" + t + "\"").None?
    ensures TryCreate("\"" + t + "\"", parseDouble).Some?
    ensures ToString(TryCreate("\"" + t + "\"", parseDouble).value, formatDouble) == Success("\"" + t + "\"")
  {
    var s := "\"" + t + "\"";
    QuoteIsNotNumber(s);
    QuotedContent(t);
    assert TryParseExpression(s, parseDouble) == Parse(true, WideChar, Some(StringValue(t)));
  }

  /** Quoting content that neither starts nor ends with a quote is undone by `ParseAsString`. */
  lemma QuotedContent(t: string)
    requires |t| == 0 || (t[0] != '"' && t[|t| - 1] != '"')
    ensures ParseAsString("\"" + t + "\"") == Some(t)
  {
    var s := "\"" + t + "\"";
    assert IsQuoted(s);
    TrimQuotedContent(t);
  }

  lemma TrimQuotedContent(t: string)
    requires |t| == 0 || (t[0] != '"' && t[|t| - 1] != '"')
    ensures TrimEnd(TrimStart("\"" + t + "\"", {'"'}), {'"'}) == t
  {
    var s := "\"" + t + "\"";
    if |t| > 0 {
      assert s[0] == '"' && s[1..] == t + "\"";
      TrimStartStep(s, {'"'});
      assert TrimStart(s, {'"'}) == TrimStart(t + "\"", {'"'});
      TrimContentQuote(t);
    } else {
      assert s == "\"\"";
      TrimPairOfQuotes();
    }
  }

  lemma TrimPairOfQuotes()
    ensures TrimEnd(TrimStart("\"\"", {'"'}), {'"'}) == ""
  {
    var q := {'"'};
    TrimStartStep("\"\"", q);
    assert "\"\""[1..] == "\"";
    TrimStartStep("\"", q);
    assert "\""[1..] == "";
    TrimEndStop("", q);
  }

  lemma TrimContentQuote(t: string)
    requires |t| > 0 && t[0] != '"' && t[|t| - 1] != '"'
    ensures TrimEnd(TrimStart(t + "\"", {'"'}), {'"'}) == t
  {
    var q := {'"'};
    var u := t + "\"";
    assert u[0] == t[0];
    TrimStartStop(u, q);
    TrimEndStep(u, q);
    assert u[..|u| - 1] == t;
    TrimEndStop(t, q);
  }

  /** Text that starts with a quote is neither decimal nor hex. */
  lemma QuoteIsNotNumber(s: string)
    requires |s| > 0 && s[0] == '"'
    ensures ParseAsLong(s).None?
  {
    var w := TrimEnd(TrimStart(s, NumberWhite), NumberWhite);
    assert TrimStart(s, NumberWhite) == s;
    TrimEndIsPrefix(s, NumberWhite);
    if |w| > 0 {
      assert w[0] == '"';
      assert !IsDigitIn(w[0], 10);
    }
  }

  /**
   * A hex literal prints as its bare lower-case digits: the `0x` is lost, and
   * putting it back reads the same value.
   */
  lemma HexLiteralDropsPrefix(s: string, parseDouble: DoubleParser, formatDouble: DoubleFormatter)
    requires HasHexPrefix(s) && ParseAsLong(s).Some? && ParseAsLong(s).value != LongMin
    ensures TryCreate(s, parseDouble).Some?
    ensures ToString(TryCreate(s, parseDouble).value, formatDouble) == Success(HexText(ParseAsLong(s).value))
    ensures ParseAsLong("0x" + HexText(ParseAsLong(s).value)) == ParseAsLong(s)
  {
    assert OccursAt(s, "0x", 0) || OccursAt(s, "0X", 0);
    assert IsHexadecimal(Some(s));
    ParseAsLongReadsPrinted(ParseAsLong(s).value);
  }

  /** `long.MinValue` parses, but gets kind `Void`, so printing it throws, in decimal and in hex. */
  lemma MinimumCannotPrint(parseDouble: DoubleParser, formatDouble: DoubleFormatter)
    ensures TryCreate(DecimalText(LongMin), parseDouble).Some?
    ensures TryCreate(DecimalText(LongMin), parseDouble).value.kind == Void
    ensures ToString(TryCreate(DecimalText(LongMin), parseDouble).value, formatDouble).Failure?
    ensures TryCreate("0x" + HexText(LongMin), parseDouble).Some?
    ensures ToString(TryCreate("0x" + HexText(LongMin), parseDouble).value, formatDouble).Failure?
    ensures ToString(FromLong(LongMin), formatDouble).Failure?
  {
    ParseAsLongReadsPrinted(LongMin);
  }

  /** A literal built from a `long` has no text, so it prints in decimal. */
  lemma FromLongPrintsDecimal(v: int, formatDouble: DoubleFormatter)
    requires InLongRange(v) && v != LongMin
    ensures ToString(FromLong(v), formatDouble) == Success(DecimalText(v))
  {
  }
}

module LiteralTable {
  import opened Results
  import opened Numerals
  import opened Ast
  import opened Literals

  /** `0x10` folds to the `sbyte` 16 and prints back in hex, without its prefix. */
  lemma HexSixteen(parseDouble: DoubleParser, formatDouble: DoubleFormatter)
    ensures TryCreate("0x10", parseDouble) == Some(Literal(Int8, IntValue(16), Some("0x10")))
    ensures ToString(TryCreate("0x10", parseDouble).value, formatDouble) == Success("10")
  {
    var d := "0x10"[2..];
    assert d == "10";
    TrimUnchanged(d, NumberWhite);
    assert ValueOf(d, 16) == 16 by {
      assert d[..1] == "1";
      assert ValueOf(d[..1], 16) == 1;
    }
    assert HexText(16) == "10" by {
      assert Numeral(1, 16) == "1";
    }
    assert OccursAt("0x10", "0x", 0);
  }

  /** `300` is above `byte` and folds to `short`. */
  lemma ThreeHundred(parseDouble: DoubleParser, formatDouble: DoubleFormatter)
    ensures TryCreate("300", parseDouble) == Some(Literal(Int16, IntValue(300), Some("300")))
    ensures ToString(TryCreate("300", parseDouble).value, formatDouble) == Success("300")
  {
    var s := "300";
    assert AllDigits(s, 10) by {
      assert IsDigitIn(s[0], 10) && IsDigitIn(s[1], 10) && IsDigitIn(s[2], 10);
    }
    assert ValueOf(s, 10) == 300 by {
      assert s[..2] == "30" && s[..2][..1] == "3" && "3"[..0] == "";
      assert ValueOf("3", 10) == 3;
      assert ValueOf("30", 10) == 30;
    }
    assert Canonical(s, 10);
    TrimUnchanged(s, NumberWhite);
    assert ParseDecimalLong(s) == Some(300);
    DecimalLiteralRoundTrip(s, parseDouble, formatDouble);
  }

  /** Text that is no number, no `double` and not quoted folds to nothing. */
  lemma GarbageFails(parseDouble: DoubleParser)
    requires parseDouble("garbage").None?
    ensures TryCreate("garbage", parseDouble).None?
  {
    var s := "garbage";
    assert s[0] == 'g' && s[|s| - 1] == 'e';
    TrimStartStop(s, NumberWhite);
    TrimEndStop(s, NumberWhite);
    assert !IsDigitIn(s[0], 10);
    assert ParseSignedDecimal(s).None?;
    assert !IsQuoted(s);
  }

  /** A quoted text folds to a wide-character string without its quotes. */
  lemma QuotedAbc(parseDouble: DoubleParser, formatDouble: DoubleFormatter)
    requires parseDouble("\"abc\"").None?
    ensures TryCreate("\"abc\"", parseDouble) == Some(Literal(WideChar, StringValue("abc"), Some("\"abc\"")))
    ensures ToString(TryCreate("\"abc\"", parseDouble).value, formatDouble) == Success("\"abc\"")
  {
    assert "\"abc\"" == "\"" + "abc" + "\"";
    QuoteIsNotNumber("\"abc\"");
    QuotedContent("abc");
    QuotedLiteralRoundTrip("abc", parseDouble, formatDouble);
  }

  /** Hex reads the 64-bit pattern as two's complement: all ones is -1, printed back as sixteen `f`s. */
  lemma AllOnesIsMinusOne(parseDouble: DoubleParser, formatDouble: DoubleFormatter)
    ensures TryCreate("0x" + HexText(-1), parseDouble) == Some(Literal(Int8, IntValue(-1), Some("0x" + HexText(-1))))
    ensures ToString(TryCreate("0x" + HexText(-1), parseDouble).value, formatDouble) == Success(HexText(-1))
  {
    var s := "0x" + HexText(-1);
    ParseAsLongReadsPrinted(-1);
    assert ParseAsLong(s) == Some(-1);
    assert SmallestIntegerKind(-1) == Int8;
    assert TryParseExpression(s, parseDouble) == Parse(true, Int8, Some(IntValue(-1)));
    HexLiteralDropsPrefix(s, parseDouble, formatDouble);
  }
}
