/**
 Decimal numbers and separators inside strings.

 A Go string is a sequence of bytes; here it is a `string` each of whose
 characters is one byte.
 */
module Text {
  import opened Wrappers

  const INT64_MIN: int := -0x8000_0000_0000_0000
  const INT64_MAX: int := 0x7FFF_FFFF_FFFF_FFFF

  predicate FitsInt64(n: int) {
    INT64_MIN <= n <= INT64_MAX
  }

  /** Two's-complement truncation to 64 bits. */
  function WrapInt64(n: int): (r: int)
    ensures FitsInt64(r)
    ensures FitsInt64(n) <==> r == n
  {
    (n - INT64_MIN) % 0x1_0000_0000_0000_0000 + INT64_MIN
  }

  predicate IsDigit(c: char) {
    '0' <= c <= '9'
  }

  predicate AllDigits(s: string) {
    forall i :: 0 <= i < |s| ==> IsDigit(s[i])
  }

  function DigitChar(d: int): (c: char)
    requires 0 <= d < 10
    ensures IsDigit(c) && DigitValue(c) == d
  {
    ('0' as int + d) as char
  }

  function DigitValue(c: char): (d: nat)
    requires IsDigit(c)
  {
    c as int - '0' as int
  }

  function OfNat(n: nat): (s: string)
    ensures |s| > 0 && AllDigits(s)
  {
    if n < 10 then [DigitChar(n)] else OfNat(n / 10) + [DigitChar(n % 10)]
  }

  function ToNat(s: string): nat
    requires AllDigits(s)
  {
    if |s| == 0 then 0 else 10 * ToNat(s[..|s| - 1]) + DigitValue(s[|s| - 1])
  }

  lemma {:induction false} NatRoundTrip(n: nat)
    ensures ToNat(OfNat(n)) == n
  {
    if n >= 10 {
      NatRoundTrip(n / 10);
      assert OfNat(n)[..|OfNat(n)| - 1] == OfNat(n / 10);
    }
  }

  /** `%d` and `fmt.Sprint` on a signed integer. */
  function OfInt(i: int): (s: string)
    ensures |s| > 0 && ':' !in s
  {
    if i < 0 then ['-'] + OfNat(-i) else OfNat(i)
  }

  /** `strconv.ParseInt(s, 10, 64)`: optional sign, digits, and a range check. */
  function ParseInt64(s: string): Option<int> {
    var signed := |s| > 0 && (s[0] == '-' || s[0] == '+');
    var digits := if signed then s[1..] else s;
    if |digits| == 0 || !AllDigits(digits) then None
    else
      var n: int := if signed && s[0] == '-' then -(ToNat(digits) as int) else ToNat(digits);
      if FitsInt64(n) then Some(n) else None
  }

  lemma ParsePrinted(i: int)
    ensures ParseInt64(OfInt(i)) == if FitsInt64(i) then Some(i) else None
  {
    if i < 0 {
      NatRoundTrip(-i);
      assert OfInt(i)[1..] == OfNat(-i);
    } else {
      NatRoundTrip(i);
      assert IsDigit(OfInt(i)[0]);
    }
  }

  /** `s` is an optional sign and digits that denote `n`. */
  ghost predicate Spells(s: string, sign: string, digits: string, n: int) {
    && sign in {"", "+", "-"} && s == sign + digits
    && |digits| > 0 && AllDigits(digits)
    && n == if sign == "-" then -(ToNat(digits) as int) else ToNat(digits)
  }

  lemma ParsedSpells(s: string, n: int) returns (sign: string, digits: string)
    requires ParseInt64(s) == Some(n)
    ensures FitsInt64(n) && Spells(s, sign, digits, n)
  {
    if s[0] == '-' || s[0] == '+' {
      sign, digits := s[..1], s[1..];
      assert sign == [s[0]];
    } else {
      sign, digits := "", s;
    }
  }

  lemma SpelledParses(s: string, sign: string, digits: string, n: int)
    requires FitsInt64(n) && Spells(s, sign, digits, n)
    ensures ParseInt64(s) == Some(n)
  {
    assert IsDigit(digits[0]);
    if sign == "" {
      assert s == digits;
    } else {
      assert s[0] == sign[0] && s[1..] == digits;
    }
  }

  /** Parsing accepts exactly the signed decimals that fit 64 bits. */
  lemma ParseInt64Exactly(s: string, n: int)
    ensures ParseInt64(s) == Some(n) <==> FitsInt64(n) && exists sign, digits :: Spells(s, sign, digits, n)
  {
    if ParseInt64(s) == Some(n) { var sign, digits := ParsedSpells(s, n); }
    if FitsInt64(n) {
      if sign, digits :| Spells(s, sign, digits, n) { SpelledParses(s, sign, digits, n); }
    }
  }

  lemma OfIntInjective(i: int, j: int)
    requires OfInt(i) == OfInt(j)
    ensures i == j
  {
    if i < 0 { NatRoundTrip(-i); assert OfInt(i)[1..] == OfNat(-i); }
    else { NatRoundTrip(i); assert IsDigit(OfInt(i)[0]); }
    if j < 0 { NatRoundTrip(-j); assert OfInt(j)[1..] == OfNat(-j); }
    else { NatRoundTrip(j); assert IsDigit(OfInt(j)[0]); }
  }

  /** `strings.Cut(s, ":")`. */
  function CutColon(s: string): (r: Option<(string, string)>) {
    if |s| == 0 then None
    else if s[0] == ':' then Some(([], s[1..]))
    else match CutColon(s[1..])
      case None => None
      case Some((a, b)) => Some(([s[0]] + a, b))
  }

  /** The text is cut at its first colon, if it has one. */
  lemma {:induction false} CutColonExactly(s: string, head: string, rest: string)
    ensures CutColon(s) == Some((head, rest)) <==> ':' !in head && s == head + [':'] + rest
  {
    if |s| == 0 {
    } else if s[0] == ':' {
      if |head| > 0 { assert s == head + [':'] + rest ==> s[0] in head; }
    } else {
      if |head| > 0 {
        CutColonExactly(s[1..], head[1..], rest);
        assert head == [head[0]] + head[1..];
        if s == head + [':'] + rest { assert s[0] == head[0] && s[1..] == head[1..] + [':'] + rest; }
        if s[0] == head[0] && s[1..] == head[1..] + [':'] + rest { assert s == [s[0]] + s[1..] == head + [':'] + rest; }
      }
    }
  }

  /** Cutting finds the first colon, so a colon-free head comes back whole. */
  lemma {:induction false} CutColonAt(head: string, rest: string)
    requires ':' !in head
    ensures CutColon(head + [':'] + rest) == Some((head, rest))
  {
    var s := head + [':'] + rest;
    if |head| == 0 {
      assert s[1..] == rest;
    } else {
      assert s[1..] == head[1..] + [':'] + rest;
      CutColonAt(head[1..], rest);
      assert [head[0]] + head[1..] == head;
    }
  }
}
