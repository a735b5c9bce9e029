/**
 Unpadded base64url (section 5 of RFC 4648) as Go's `base64.RawURLEncoding`
 encodes and decodes it: the decoder skips carriage returns and line feeds,
 refuses a dangling single symbol, and ignores the spare low bits of a short
 last group.
 */
module Base64 {
  import opened Wrappers

  predicate IsByte(c: char) {
    c as int < 256
  }

  predicate IsBytes(s: string) {
    forall i :: 0 <= i < |s| ==> IsByte(s[i])
  }

  function Symbol(v: int): (c: char)
    requires 0 <= v < 64
    ensures Value(c) == Some(v)
    ensures c != '\r' && c != '\n'
  {
    if v < 26 then ('A' as int + v) as char
    else if v < 52 then ('a' as int + v - 26) as char
    else if v < 62 then ('0' as int + v - 52) as char
    else if v == 62 then '-'
    else '_'
  }

  function Value(c: char): (v: Option<int>)
    ensures v.Some? ==> 0 <= v.value < 64
  {
    if 'A' <= c <= 'Z' then Some(c as int - 'A' as int)
    else if 'a' <= c <= 'z' then Some(c as int - 'a' as int + 26)
    else if '0' <= c <= '9' then Some(c as int - '0' as int + 52)
    else if c == '-' then Some(62)
    else if c == '_' then Some(63)
    else None
  }

  /** One to three bytes become two to four symbols. */
  function EncodeGroup(g: string): (t: string)
    requires IsBytes(g) && 1 <= |g| <= 3
    ensures |t| == |g| + 1
    ensures forall i :: 0 <= i < |t| ==> t[i] != '\r' && t[i] != '\n'
  {
    var a := g[0] as int;
    if |g| == 1 then [Symbol(a / 4), Symbol(a % 4 * 16)]
    else
      var b := g[1] as int;
      if |g| == 2 then [Symbol(a / 4), Symbol(a % 4 * 16 + b / 16), Symbol(b % 16 * 4)]
      else
        var c := g[2] as int;
        [Symbol(a / 4), Symbol(a % 4 * 16 + b / 16), Symbol(b % 16 * 4 + c / 64), Symbol(c % 64)]
  }

  function Encode(s: string): (t: string)
    requires IsBytes(s)
    ensures s != [] ==> t != []
    ensures forall i :: 0 <= i < |t| ==> t[i] != '\r' && t[i] != '\n'
  {
    if |s| == 0 then []
    else if |s| <= 3 then EncodeGroup(s)
    else EncodeGroup(s[..3]) + Encode(s[3..])
  }

  function SkipNewlines(t: string): string {
    if |t| == 0 then []
    else if t[0] == '\r' || t[0] == '\n' then SkipNewlines(t[1..])
    else [t[0]] + SkipNewlines(t[1..])
  }

  function DecodeGroup(t: string): Option<string>
    requires 1 <= |t| <= 4
  {
    if |t| == 1 then None
    else
      var w :- Value(t[0]);
      var x :- Value(t[1]);
      var first := (w * 4 + x / 16) as char;
      if |t| == 2 then Some([first])
      else
        var y :- Value(t[2]);
        var second := (x % 16 * 16 + y / 4) as char;
        if |t| == 3 then Some([first, second])
        else
          var z :- Value(t[3]);
          Some([first, second, (y % 4 * 64 + z) as char])
  }

  function DecodeGroups(t: string): Option<string> {
    if |t| == 0 then Some([])
    else if |t| <= 4 then DecodeGroup(t)
    else
      var first :- DecodeGroup(t[..4]);
      var rest :- DecodeGroups(t[4..]);
      Some(first + rest)
  }

  function Decode(t: string): Option<string> {
    DecodeGroups(SkipNewlines(t))
  }

  /** The URL-safe alphabet. */
  predicate InAlphabet(c: char) {
    'A' <= c <= 'Z' || 'a' <= c <= 'z' || '0' <= c <= '9' || c == '-' || c == '_'
  }

  ghost predicate AllInAlphabet(t: string) {
    forall i | 0 <= i < |t| :: InAlphabet(t[i])
  }

  /** The alphabet's order: upper case, lower case, digits, then the two URL-safe signs. */
  lemma SymbolExactly(v: int)
    requires 0 <= v < 64
    ensures v < 26 ==> Symbol(v) as int == 'A' as int + v
    ensures 26 <= v < 52 ==> Symbol(v) as int == 'a' as int + v - 26
    ensures 52 <= v < 62 ==> Symbol(v) as int == '0' as int + v - 52
    ensures v == 62 ==> Symbol(v) == '-'
    ensures v == 63 ==> Symbol(v) == '_'
  {
  }

  lemma ValueExactly(c: char)
    ensures Value(c).Some? <==> InAlphabet(c)
  {
  }

  lemma GroupDecodes(t: string)
    requires 1 <= |t| <= 4
    ensures DecodeGroup(t).Some? <==> |t| > 1 && AllInAlphabet(t)
  {
    ValueExactly(t[0]);
    if |t| > 1 { ValueExactly(t[1]); }
    if |t| > 2 { ValueExactly(t[2]); }
    if |t| > 3 { ValueExactly(t[3]); }
  }

  lemma AllInAlphabetConcat(a: string, b: string)
    ensures AllInAlphabet(a + b) <==> AllInAlphabet(a) && AllInAlphabet(b)
  {
    if AllInAlphabet(a + b) {
      assert forall i | 0 <= i < |a| :: a[i] == (a + b)[i];
      assert forall i | 0 <= i < |b| :: b[i] == (a + b)[|a| + i];
    }
  }

  lemma {:induction false} GroupsDecode(t: string)
    ensures DecodeGroups(t).Some? <==> |t| % 4 != 1 && AllInAlphabet(t)
  {
    if |t| == 0 {
    } else if |t| <= 4 {
      GroupDecodes(t);
    } else {
      GroupDecodes(t[..4]);
      GroupsDecode(t[4..]);
      AllInAlphabetConcat(t[..4], t[4..]);
      assert t == t[..4] + t[4..];
    }
  }

  /** A token decodes exactly when, line ends aside, it has only alphabet characters and no stray last one. */
  lemma DecodesExactly(t: string)
    ensures Decode(t).Some? <==> |SkipNewlines(t)| % 4 != 1 && AllInAlphabet(SkipNewlines(t))
  {
    GroupsDecode(SkipNewlines(t));
  }

  lemma {:induction false} NothingToSkip(t: string)
    requires forall i :: 0 <= i < |t| ==> t[i] != '\r' && t[i] != '\n'
    ensures SkipNewlines(t) == t
  {
    if |t| == 0 {
    } else {
      NothingToSkip(t[1..]);
    }
  }

  /** Splitting three bytes into four six-bit values loses nothing. */
  lemma GroupBits(a: int, b: int, c: int)
    requires 0 <= a < 256 && 0 <= b < 256 && 0 <= c < 256
    ensures a / 4 * 4 + (a % 4 * 16 + b / 16) / 16 == a
    ensures (a % 4 * 16 + b / 16) % 16 * 16 + (b % 16 * 4 + c / 64) / 4 == b
    ensures (b % 16 * 4 + c / 64) % 4 * 64 + c % 64 == c
  {
    assert (a % 4 * 16 + b / 16) / 16 == a % 4 && (a % 4 * 16 + b / 16) % 16 == b / 16;
    assert (b % 16 * 4 + c / 64) / 4 == b % 16 && (b % 16 * 4 + c / 64) % 4 == c / 64;
  }

  lemma OneByteRoundTrip(g: string)
    requires IsBytes(g) && |g| == 1
    ensures DecodeGroup(EncodeGroup(g)) == Some(g)
  {
    var a := g[0] as int;
    GroupBits(a, 0, 0);
    assert g == [a as char];
  }

  lemma TwoByteRoundTrip(g: string)
    requires IsBytes(g) && |g| == 2
    ensures DecodeGroup(EncodeGroup(g)) == Some(g)
  {
    var a, b := g[0] as int, g[1] as int;
    GroupBits(a, b, 0);
    assert g == [a as char, b as char];
  }

  lemma FourSymbols(w: int, x: int, y: int, z: int, a: int, b: int, c: int)
    requires 0 <= w < 64 && 0 <= x < 64 && 0 <= y < 64 && 0 <= z < 64
    requires w * 4 + x / 16 == a && x % 16 * 16 + y / 4 == b && y % 4 * 64 + z == c
    ensures 0 <= a < 256 && 0 <= b < 256 && 0 <= c < 256
    ensures DecodeGroup([Symbol(w), Symbol(x), Symbol(y), Symbol(z)]) == Some([a as char, b as char, c as char])
  {
  }

  lemma ThreeBytes(g: string, w: int, x: int, y: int, z: int)
    requires IsBytes(g) && |g| == 3
    requires w == g[0] as int / 4 && x == g[0] as int % 4 * 16 + g[1] as int / 16
    requires y == g[1] as int % 16 * 4 + g[2] as int / 64 && z == g[2] as int % 64
    ensures 0 <= w < 64 && 0 <= x < 64 && 0 <= y < 64 && 0 <= z < 64
    ensures EncodeGroup(g) == [Symbol(w), Symbol(x), Symbol(y), Symbol(z)]
  {
  }

  lemma ThreeByteRoundTrip(g: string)
    requires IsBytes(g) && |g| == 3
    ensures DecodeGroup(EncodeGroup(g)) == Some(g)
  {
    var a, b, c := g[0] as int, g[1] as int, g[2] as int;
    var w, x, y, z := a / 4, a % 4 * 16 + b / 16, b % 16 * 4 + c / 64, c % 64;
    GroupBits(a, b, c);
    ThreeBytes(g, w, x, y, z);
    FourSymbols(w, x, y, z, a, b, c);
    assert g == [a as char, b as char, c as char];
  }

  lemma GroupRoundTrip(g: string)
    requires IsBytes(g) && 1 <= |g| <= 3
    ensures DecodeGroup(EncodeGroup(g)) == Some(g)
  {
    if |g| == 1 {
      OneByteRoundTrip(g);
    } else if |g| == 2 {
      TwoByteRoundTrip(g);
    } else {
      ThreeByteRoundTrip(g);
    }
  }

  lemma {:induction false} GroupsRoundTrip(s: string)
    requires IsBytes(s)
    ensures DecodeGroups(Encode(s)) == Some(s)
  {
    if 1 <= |s| <= 3 {
      GroupRoundTrip(s);
    } else if |s| > 3 {
      GroupRoundTrip(s[..3]);
      GroupsRoundTrip(s[3..]);
      var g, rest := EncodeGroup(s[..3]), Encode(s[3..]);
      assert (g + rest)[..4] == g && (g + rest)[4..] == rest;
      assert s == s[..3] + s[3..];
    }
  }

  /** Decoding undoes encoding, for every byte string. */
  lemma DecodeEncode(s: string)
    requires IsBytes(s)
    ensures Decode(Encode(s)) == Some(s)
  {
    NothingToSkip(Encode(s));
    GroupsRoundTrip(s);
  }
}
