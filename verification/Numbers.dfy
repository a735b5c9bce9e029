/**
 Which parameter values are numbers, and the one spelling each number gets
 before it is hashed.

 float64 itself is a parameter: `round` takes the exact value a literal denotes
 to the float it parses to (`None` for ErrRange), `format` prints a float.
 */
module Numbers {
  import opened Wrappers
  import opened Sequences
  import opened Text

  datatype Exponent = Exponent(marker: char, sign: string, digits: string)

  /** A literal cut into the parts the number pattern names. */
  datatype Spelling = Spelling(
    negative: bool,
    whole: string,
    fraction: Option<string>,
    exponent: Option<Exponent>)

  predicate DigitRun(s: string) {
    |s| > 0 && AllDigits(s)
  }

  /** `-?((0|[1-9]\d*)(\.\d+)?|\.\d+)([eE][+-]?\d+)?`, part by part. */
  predicate WellFormed(sp: Spelling) {
    && (sp.whole == "0" || (DigitRun(sp.whole) && sp.whole[0] != '0') || (sp.whole == "" && sp.fraction.Some?))
    && (sp.fraction.Some? ==> DigitRun(sp.fraction.value))
    && (sp.exponent.Some? ==>
          var e := sp.exponent.value;
          && (e.marker == 'e' || e.marker == 'E')
          && (e.sign == "" || e.sign == "+" || e.sign == "-")
          && DigitRun(e.digits))
  }

  function RenderExponent(e: Option<Exponent>): string {
    if e.None? then "" else [e.value.marker] + (e.value.sign + e.value.digits)
  }

  function RenderFraction(f: Option<string>): string {
    if f.None? then "" else "." + f.value
  }

  function Render(sp: Spelling): string {
    (if sp.negative then "-" else "") + (sp.whole + (RenderFraction(sp.fraction) + RenderExponent(sp.exponent)))
  }

  /** The longest run of leading digits, and what follows it. */
  function Span(s: string): (r: (string, string))
    ensures r.0 + r.1 == s && AllDigits(r.0)
    ensures |r.1| > 0 ==> !IsDigit(r.1[0])
  {
    if |s| == 0 || !IsDigit(s[0]) then ("", s)
    else
      var r := Span(s[1..]);
      ([s[0]] + r.0, r.1)
  }

  lemma {:induction false} SpanStops(digits: string, rest: string)
    requires AllDigits(digits)
    requires |rest| > 0 ==> !IsDigit(rest[0])
    ensures Span(digits + rest) == (digits, rest)
  {
    if |digits| == 0 {
      assert digits + rest == rest;
    } else {
      SpanStops(digits[1..], rest);
      assert (digits + rest)[1..] == digits[1..] + rest;
      assert digits == [digits[0]] + digits[1..];
    }
  }

  function ScanExponent(s: string): Option<Option<Exponent>> {
    if |s| == 0 then Some(None)
    else if s[0] != 'e' && s[0] != 'E' then None
    else
      var signed := |s| > 1 && (s[1] == '+' || s[1] == '-');
      var sign := if signed then s[1..2] else "";
      var digits := if signed then s[2..] else s[1..];
      if DigitRun(digits) then Some(Some(Exponent(s[0], sign, digits))) else None
  }

  function ScanTail(negative: bool, whole: string, s: string): Option<Spelling> {
    if |s| > 0 && s[0] == '.' then
      var (digits, rest) := Span(s[1..]);
      if |digits| == 0 then None
      else
        var e :- ScanExponent(rest);
        Some(Spelling(negative, whole, Some(digits), e))
    else if whole == "" then None
    else
      var e :- ScanExponent(s);
      Some(Spelling(negative, whole, None, e))
  }

  /** Reads a literal left to right; `None` when the pattern does not match. */
  function Scan(v: string): Option<Spelling> {
    var negative := |v| > 0 && v[0] == '-';
    var (whole, rest) := Span(if negative then v[1..] else v);
    if |whole| > 1 && whole[0] == '0' then None
    else ScanTail(negative, whole, rest)
  }

  lemma ScanExponentComplete(x: Exponent)
    requires WellFormed(Spelling(false, "0", None, Some(x)))
    ensures ScanExponent(RenderExponent(Some(x))) == Some(Some(x))
  {
    var s := RenderExponent(Some(x));
    if x.sign == "" {
      assert s[1..] == x.digits && IsDigit(x.digits[0]);
    } else {
      assert s[1..2] == x.sign && s[2..] == x.digits;
    }
  }

  lemma ScanExponentSound(s: string, x: Exponent)
    requires ScanExponent(s) == Some(Some(x))
    ensures RenderExponent(Some(x)) == s && WellFormed(Spelling(false, "0", None, Some(x)))
  {
    if s[1] == '+' || s[1] == '-' {
      assert x.sign == [s[1]] && x.digits == s[2..];
      assert s == [s[0]] + ([s[1]] + s[2..]);
    } else {
      assert x.sign == [] && x.digits == s[1..];
      assert s == [s[0]] + ([] + s[1..]);
    }
  }

  lemma ScanExponentExact(s: string, e: Option<Exponent>)
    ensures ScanExponent(s) == Some(e) <==> RenderExponent(e) == s && WellFormed(Spelling(false, "0", None, e))
  {
    if e.Some? {
      if ScanExponent(s) == Some(e) { ScanExponentSound(s, e.value); }
      if WellFormed(Spelling(false, "0", None, e)) { ScanExponentComplete(e.value); }
    }
  }

  lemma FractionTailSound(negative: bool, whole: string, s: string, sp: Spelling)
    requires ScanTail(negative, whole, s) == Some(sp) && |s| > 0 && s[0] == '.'
    ensures sp.negative == negative && sp.whole == whole && sp.fraction.Some? && DigitRun(sp.fraction.value)
    ensures WellFormed(Spelling(false, "0", None, sp.exponent))
    ensures RenderFraction(sp.fraction) + RenderExponent(sp.exponent) == s
  {
    var (digits, tail) := Span(s[1..]);
    assert sp == Spelling(negative, whole, Some(digits), sp.exponent);
    ScanExponentExact(tail, sp.exponent);
    Associative(".", digits, tail);
    assert s == "." + s[1..];
  }

  lemma PlainTailSound(negative: bool, whole: string, s: string, sp: Spelling)
    requires ScanTail(negative, whole, s) == Some(sp) && (|s| == 0 || s[0] != '.')
    ensures sp.negative == negative && sp.whole == whole && whole != "" && sp.fraction.None?
    ensures WellFormed(Spelling(false, "0", None, sp.exponent))
    ensures RenderFraction(sp.fraction) + RenderExponent(sp.exponent) == s
  {
    ScanExponentExact(s, sp.exponent);
    assert "" + s == s;
  }

  lemma ScanTailSound(negative: bool, whole: string, s: string, sp: Spelling)
    requires ScanTail(negative, whole, s) == Some(sp)
    ensures sp.negative == negative && sp.whole == whole && (whole == "" ==> sp.fraction.Some?)
    ensures sp.fraction.Some? ==> DigitRun(sp.fraction.value)
    ensures WellFormed(Spelling(false, "0", None, sp.exponent))
    ensures RenderFraction(sp.fraction) + RenderExponent(sp.exponent) == s
  {
    if |s| > 0 && s[0] == '.' {
      FractionTailSound(negative, whole, s, sp);
    } else {
      PlainTailSound(negative, whole, s, sp);
    }
  }

  lemma ScanSound(v: string, sp: Spelling)
    requires Scan(v) == Some(sp)
    ensures WellFormed(sp) && Render(sp) == v
  {
    var negative := |v| > 0 && v[0] == '-';
    var body := if negative then v[1..] else v;
    var (whole, rest) := Span(body);
    ScanTailSound(negative, whole, rest, sp);
    if |whole| == 1 && whole[0] == '0' { assert whole == "0"; }
    assert v == (if negative then "-" else "") + body;
  }

  lemma ScanTailWithFraction(sp: Spelling)
    requires WellFormed(sp) && sp.fraction.Some?
    ensures ScanTail(sp.negative, sp.whole, RenderFraction(sp.fraction) + RenderExponent(sp.exponent)) == Some(sp)
  {
    var x := RenderExponent(sp.exponent);
    ScanExponentExact(x, sp.exponent);
    ScanFraction(sp, sp.fraction.value, x);
    assert RenderFraction(sp.fraction) + x == "." + sp.fraction.value + x;
  }

  lemma ScanFraction(sp: Spelling, digits: string, x: string)
    requires WellFormed(sp) && sp.fraction == Some(digits)
    requires ScanExponent(x) == Some(sp.exponent) && (|x| > 0 ==> !IsDigit(x[0]))
    ensures ScanTail(sp.negative, sp.whole, "." + digits + x) == Some(sp)
  {
    SpanStops(digits, x);
    assert ("." + digits + x)[1..] == digits + x;
  }

  lemma ScanTailWithoutFraction(sp: Spelling)
    requires WellFormed(sp) && sp.fraction.None?
    ensures ScanTail(sp.negative, sp.whole, RenderFraction(sp.fraction) + RenderExponent(sp.exponent)) == Some(sp)
  {
    var x := RenderExponent(sp.exponent);
    ScanExponentExact(x, sp.exponent);
    assert RenderFraction(sp.fraction) + x == x;
  }

  lemma SpanOfBody(sp: Spelling)
    requires WellFormed(sp)
    ensures var rest := RenderFraction(sp.fraction) + RenderExponent(sp.exponent);
            Span(sp.whole + rest) == (sp.whole, rest)
  {
    var rest := RenderFraction(sp.fraction) + RenderExponent(sp.exponent);
    assert |rest| > 0 ==> !IsDigit(rest[0]);
    SpanStops(sp.whole, rest);
  }

  lemma ScanBody(v: string, negative: bool, body: string)
    requires v == (if negative then "-" else "") + body
    requires !negative ==> |body| == 0 || body[0] != '-'
    requires |Span(body).0| > 1 ==> Span(body).0[0] != '0'
    ensures Scan(v) == ScanTail(negative, Span(body).0, Span(body).1)
  {
    if negative { assert v[1..] == body; } else { assert v == body; }
  }

  lemma ScanComplete(sp: Spelling)
    requires WellFormed(sp)
    ensures Scan(Render(sp)) == Some(sp)
  {
    var body := sp.whole + (RenderFraction(sp.fraction) + RenderExponent(sp.exponent));
    SpanOfBody(sp);
    ScanBody(Render(sp), sp.negative, body);
    if sp.fraction.Some? { ScanTailWithFraction(sp); } else { ScanTailWithoutFraction(sp); }
  }

  /** The scanner accepts exactly the pattern's language, with one reading each. */
  lemma ScanExact(v: string, sp: Spelling)
    ensures Scan(v) == Some(sp) <==> WellFormed(sp) && Render(sp) == v
  {
    if Scan(v) == Some(sp) { ScanSound(v, sp); }
    if WellFormed(sp) && Render(sp) == v { ScanComplete(sp); }
  }

  /** `x` with its decimal point moved `e` places to the right, or to the left if `e` is negative. */
  function Shift(x: real, e: int): real
    decreases if e < 0 then -e else e
  {
    if e == 0 then x
    else if e > 0 then 10.0 * Shift(x, e - 1)
    else Shift(x, e + 1) / 10.0
  }

  function Digits(sp: Spelling): string {
    sp.whole + sp.fraction.GetOr("")
  }

  function ExponentOf(sp: Spelling): int
    requires WellFormed(sp)
  {
    if sp.exponent.None? then 0
    else
      var n := ToNat(sp.exponent.value.digits);
      if sp.exponent.value.sign == "-" then -(n as int) else n
  }

  /** The exact number a literal denotes. */
  function Value(sp: Spelling): real
    requires WellFormed(sp)
  {
    var m := Shift(ToNat(Digits(sp)) as real, ExponentOf(sp) - |sp.fraction.GetOr("")|);
    if sp.negative then -m else m
  }

  /** One place to the right is ten times as much. */
  lemma ShiftOne(x: real, e: int)
    ensures Shift(x, 0) == x
    ensures Shift(x, e + 1) == 10.0 * Shift(x, e)
  {
  }

  lemma {:induction false} ShiftShifted(x: real, a: int, b: int)
    ensures Shift(Shift(x, a), b) == Shift(x, a + b)
    decreases if b < 0 then -b else b
  {
    if b > 0 {
      ShiftShifted(x, a, b - 1);
      ShiftOne(x, a + b - 1);
    } else if b < 0 {
      ShiftShifted(x, a, b + 1);
      ShiftOne(x, a + b);
    }
  }

  lemma {:induction false} ShiftSign(x: real, e: int)
    ensures Shift(-x, e) == -Shift(x, e)
    ensures Shift(x, e) == 0.0 <==> x == 0.0
    decreases if e < 0 then -e else e
  {
    if e > 0 { ShiftSign(x, e - 1); }
    if e < 0 { ShiftSign(x, e + 1); }
  }

  /** Digits alone denote what they count, and a minus sign the opposite. */
  lemma ValueOfDigits(sp: Spelling)
    requires WellFormed(sp)
    ensures sp == Spelling(false, sp.whole, None, None) ==> Value(sp) == ToNat(sp.whole) as real
    ensures Value(sp.(negative := !sp.negative)) == -Value(sp)
  {
    assert sp.whole + "" == sp.whole;
  }

  /** Digits behind the point move it that many places to the left. */
  lemma ValueOfFraction(sp: Spelling, fraction: string)
    requires WellFormed(sp) && sp == Spelling(false, sp.whole, Some(fraction), None)
    ensures Shift(Value(sp), |fraction|) == ToNat(sp.whole + fraction) as real
  {
    ShiftShifted(ToNat(sp.whole + fraction) as real, -|fraction|, |fraction|);
  }

  /** The exponent moves the point to the right, or to the left with a minus sign. */
  lemma ValueOfExponent(sp: Spelling, sign: string, digits: string)
    requires WellFormed(sp) && sp.exponent.Some?
    requires sp.exponent.value.sign == sign && sp.exponent.value.digits == digits
    ensures var n: int := ToNat(digits);
            Value(sp) == Shift(Value(sp.(exponent := None)), if sign == "-" then -n else n)
  {
    var n: int, m, left := ToNat(digits), ToNat(Digits(sp)) as real, -|sp.fraction.GetOr("")|;
    var e := if sign == "-" then -n else n;
    assert Digits(sp.(exponent := None)) == Digits(sp);
    ShiftShifted(m, left, e);
    ShiftSign(Shift(m, left), e);
  }

  predicate NonZeroDigit(c: char) {
    '1' <= c <= '9'
  }

  predicate ExponentMarker(c: char) {
    c == 'e' || c == 'E'
  }

  predicate NoNonZeroDigit(s: string) {
    forall i :: 0 <= i < |s| ==> !NonZeroDigit(s[i])
  }

  /** `s` up to the first exponent marker. */
  function BeforeExponent(s: string): (r: string)
    ensures r <= s
  {
    if |s| == 0 || ExponentMarker(s[0]) then ""
    else [s[0]] + BeforeExponent(s[1..])
  }

  predicate ZeroLiteral(s: string) {
    NoNonZeroDigit(BeforeExponent(s))
  }

  lemma {:induction false} ZeroDigits(s: string)
    requires AllDigits(s)
    ensures ToNat(s) == 0 <==> NoNonZeroDigit(s)
  {
    if |s| == 0 {
    } else {
      ZeroDigits(s[..|s| - 1]);
      assert s == s[..|s| - 1] + [s[|s| - 1]];
    }
  }

  lemma {:induction false} BeforeExponentStops(head: string, tail: string)
    requires NoMarker(head)
    requires |tail| > 0 ==> ExponentMarker(tail[0])
    ensures BeforeExponent(head + tail) == head
  {
    if |head| == 0 {
      assert head + tail == tail;
    } else {
      assert (head + tail)[1..] == head[1..] + tail;
      BeforeExponentStops(head[1..], tail);
    }
  }

  /** The signed, pointed text and the bare digits have the same characters but for the sign and the point. */
  lemma SameDigitsEitherWay(sign: string, whole: string, fraction: Option<string>)
    requires NoNonZeroDigit(sign)
    ensures NoNonZeroDigit(sign + (whole + RenderFraction(fraction))) <==> NoNonZeroDigit(whole + fraction.GetOr(""))
  {
    NoNonZeroDigitConcat(sign, whole + RenderFraction(fraction));
    NoNonZeroDigitConcat(whole, RenderFraction(fraction));
    NoNonZeroDigitConcat(whole, fraction.GetOr(""));
    if fraction.Some? { NoNonZeroDigitConcat(".", fraction.value); }
  }

  lemma NoNonZeroDigitConcat(a: string, b: string)
    ensures NoNonZeroDigit(a + b) <==> NoNonZeroDigit(a) && NoNonZeroDigit(b)
  {
    if NoNonZeroDigit(a + b) {
      assert forall i :: 0 <= i < |a| ==> a[i] == (a + b)[i];
      assert forall i :: 0 <= i < |b| ==> b[i] == (a + b)[|a| + i];
    }
  }

  lemma ZeroValue(sp: Spelling)
    requires WellFormed(sp)
    ensures Value(sp) == 0.0 <==> NoNonZeroDigit(Digits(sp))
  {
    ZeroDigits(Digits(sp));
    ShiftSign(ToNat(Digits(sp)) as real, ExponentOf(sp) - |sp.fraction.GetOr("")|);
  }

  lemma MantissaText(sp: Spelling)
    requires WellFormed(sp)
    ensures BeforeExponent(Render(sp))
         == (if sp.negative then "-" else "") + (sp.whole + RenderFraction(sp.fraction))
  {
    var sign, x := if sp.negative then "-" else "", RenderExponent(sp.exponent);
    var head := sign + (sp.whole + RenderFraction(sp.fraction));
    Associative(sp.whole, RenderFraction(sp.fraction), x);
    Associative(sign, sp.whole + RenderFraction(sp.fraction), x);
    NoMarkerConcat(sp.whole, RenderFraction(sp.fraction));
    NoMarkerConcat(sign, sp.whole + RenderFraction(sp.fraction));
    BeforeExponentStops(head, x);
  }

  predicate NoMarker(s: string) {
    forall i :: 0 <= i < |s| ==> !ExponentMarker(s[i])
  }

  lemma NoMarkerConcat(a: string, b: string)
    requires NoMarker(a) && NoMarker(b)
    ensures NoMarker(a + b)
  {
  }

  /** A literal is a zero literal exactly when the number it denotes is 0. */
  lemma ZeroLiteralExact(sp: Spelling)
    requires WellFormed(sp)
    ensures ZeroLiteral(Render(sp)) <==> Value(sp) == 0.0
  {
    MantissaText(sp);
    SameDigitsEitherWay(if sp.negative then "-" else "", sp.whole, sp.fraction);
    ZeroValue(sp);
  }

  /** The search for a non-zero digit before any exponent, as a loop. */
  method IsZeroLiteral(v: string) returns (zero: bool)
    ensures zero <==> ZeroLiteral(v)
  {
    var s := BeforeExponent(v);
    for i := 0 to |s|
      invariant forall k :: 0 <= k < i ==> !NonZeroDigit(s[k])
    {
      if NonZeroDigit(s[i]) {
        return false;
      }
    }
    return true;
  }

  datatype Float64 = Float64(round: real -> Option<real>, format: real -> string)

  /** The float a string parses to, with underflow of a non-zero number refused. */
  function InRangeFloat(v: string, fl: Float64): Option<real> {
    match Scan(v)
    case None => None
    case Some(sp) =>
      ScanSound(v, sp);
      match fl.round(Value(sp))
      case None => None
      case Some(f) => if f == 0.0 && !ZeroLiteral(v) then None else Some(f)
  }

  /** Printing a float gives a literal that parses back to it, and zero prints as "0". */
  ghost predicate Faithful(fl: Float64) {
    && fl.round(0.0) == Some(0.0)
    && fl.format(0.0) == "0"
    && forall x: real :: fl.round(x).Some? ==> PrintsBack(fl, fl.round(x).value)
  }

  ghost predicate PrintsBack(fl: Float64, f: real) {
    && Scan(fl.format(f)).Some?
    && WellFormed(Scan(fl.format(f)).value)
    && fl.round(Value(Scan(fl.format(f)).value)) == Some(f)
  }

  function NormalizeParam(v: string, fl: Float64): string {
    match InRangeFloat(v, fl)
    case None => v
    case Some(f) => fl.format(f)
  }

  /**
   A number literal is replaced by its float's text, unless it is out of range
   or a non-zero number that rounds to zero.
   */
  lemma NormalizeLiteral(sp: Spelling, fl: Float64)
    requires WellFormed(sp)
    ensures var v := Render(sp);
            NormalizeParam(v, fl) ==
            match fl.round(Value(sp))
            case None => v
            case Some(f) => if f == 0.0 && Value(sp) != 0.0 then v else fl.format(f)
  {
    ScanComplete(sp);
    ZeroLiteralExact(sp);
  }

  /** Any other text stays as it is. */
  lemma NormalizeOther(v: string, fl: Float64)
    requires forall sp | WellFormed(sp) :: Render(sp) != v
    ensures NormalizeParam(v, fl) == v
  {
    if Scan(v).Some? { ScanSound(v, Scan(v).value); }
  }

  lemma PrintedInRange(f: real, x: real, fl: Float64)
    requires Faithful(fl) && fl.round(x) == Some(f)
    ensures InRangeFloat(fl.format(f), fl) == Some(f)
  {
    assert PrintsBack(fl, f);
    if f == 0.0 {
      assert BeforeExponent("0") == ['0'] + BeforeExponent([]);
      assert ZeroLiteral("0");
    }
  }

  lemma InRangeFloatIsRounded(v: string, fl: Float64) returns (x: real)
    requires InRangeFloat(v, fl).Some?
    ensures fl.round(x) == InRangeFloat(v, fl)
  {
    ScanSound(v, Scan(v).value);
    x := Value(Scan(v).value);
  }

  lemma NormalizeIdempotent(v: string, fl: Float64)
    requires Faithful(fl)
    ensures NormalizeParam(NormalizeParam(v, fl), fl) == NormalizeParam(v, fl)
  {
    if InRangeFloat(v, fl).Some? {
      var x := InRangeFloatIsRounded(v, fl);
      PrintedInRange(InRangeFloat(v, fl).value, x, fl);
    }
  }

  /** All in-range spellings of one number normalize to one text. */
  lemma OneTextPerNumber(a: Spelling, b: Spelling, fl: Float64)
    requires WellFormed(a) && WellFormed(b) && Value(a) == Value(b)
    requires InRangeFloat(Render(a), fl).Some?
    ensures NormalizeParam(Render(a), fl) == NormalizeParam(Render(b), fl)
  {
    ScanComplete(a);
    ScanComplete(b);
    ZeroLiteralExact(a);
    ZeroLiteralExact(b);
  }

  lemma ZeroSpellingsNormalize(sp: Spelling, fl: Float64)
    requires Faithful(fl) && WellFormed(sp) && Value(sp) == 0.0
    ensures NormalizeParam(Render(sp), fl) == "0"
  {
    ScanComplete(sp);
    ZeroLiteralExact(sp);
  }

  /** Two different strings are merged exactly when both are in-range literals of one float. */
  lemma MergedExactly(v: string, w: string, fl: Float64)
    requires Faithful(fl) && v != w
    ensures NormalizeParam(v, fl) == NormalizeParam(w, fl)
       <==> InRangeFloat(v, fl).Some? && InRangeFloat(v, fl) == InRangeFloat(w, fl)
  {
    if InRangeFloat(v, fl).Some? {
      var x := InRangeFloatIsRounded(v, fl);
      PrintedInRange(InRangeFloat(v, fl).value, x, fl);
    }
    if InRangeFloat(w, fl).Some? {
      var y := InRangeFloatIsRounded(w, fl);
      PrintedInRange(InRangeFloat(w, fl).value, y, fl);
    }
  }
}
