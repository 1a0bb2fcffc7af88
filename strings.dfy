/**
  Character and string helpers used by the endpoint parser and formatter:
  searching, ASCII case folding, decimal integers and percent-encoding
  (section 2.1 of RFC 3986).
*/
module Strings {
  import opened Results

  /** No character of `s` belongs to `xs`. */
  predicate Avoids(s: string, xs: set<char>) {
    forall i :: 0 <= i < |s| ==> s[i] !in xs
  }

  lemma AvoidsConcat(a: string, b: string, xs: set<char>)
    ensures Avoids(a + b, xs) <==> Avoids(a, xs) && Avoids(b, xs)
  {
    if Avoids(a, xs) && Avoids(b, xs) {
      forall i | 0 <= i < |a + b| ensures (a + b)[i] !in xs {
        if i < |a| { assert (a + b)[i] == a[i]; } else { assert (a + b)[i] == b[i - |a|]; }
      }
    }
    if Avoids(a + b, xs) {
      forall i | 0 <= i < |a| ensures a[i] !in xs {
        assert (a + b)[i] == a[i];
      }
      forall i | 0 <= i < |b| ensures b[i] !in xs {
        assert (a + b)[|a| + i] == b[i];
      }
    }
  }

  /** Index of the first character of `s` in `stops`, or `|s|` when there is none. */
  function IndexOfAny(s: string, stops: set<char>): (i: nat)
    ensures i <= |s|
    ensures forall j :: 0 <= j < i ==> s[j] !in stops
    ensures i < |s| ==> s[i] in stops
  {
    if s == [] then 0
    else if s[0] in stops then 0
    else 1 + IndexOfAny(s[1..], stops)
  }

  /** A search stops exactly where the stop-free prefix `a` ends. */
  lemma IndexOfAnyAt(a: string, b: string, stops: set<char>)
    requires Avoids(a, stops)
    requires b == [] || b[0] in stops
    ensures IndexOfAny(a + b, stops) == |a|
  {
    if b != [] {
      assert (a + b)[|a|] == b[0];
    }
  }

  /** Position of the last occurrence of `c` in `s`, if any. */
  function LastIndexOf(s: string, c: char): (r: Option<nat>)
    ensures r.None? ==> c !in s
    ensures r.Some? ==> r.value < |s| && s[r.value] == c
    ensures r.Some? ==> forall j :: r.value < j < |s| ==> s[j] != c
  {
    if s == [] then None
    else if s[|s| - 1] == c then Some(|s| - 1)
    else LastIndexOf(s[..|s| - 1], c)
  }

  lemma {:induction false} LastIndexOfAt(a: string, c: char, b: string)
    requires c !in b
    ensures LastIndexOf(a + [c] + b, c) == Some(|a|)
  {
    var s := a + [c] + b;
    if b == [] {
      assert s[|s| - 1] == c;
    } else {
      var b' := b[..|b| - 1];
      assert s[|s| - 1] == b[|b| - 1];
      assert s[..|s| - 1] == a + [c] + b';
      LastIndexOfAt(a, c, b');
    }
  }

  lemma LastIndexOfAbsent(s: string, c: char)
    requires c !in s
    ensures LastIndexOf(s, c) == None
  {
  }

  /** The first `n` characters of `s`: longer text is cut, keeping its prefix. */
  function Truncate(s: string, n: nat): (r: string)
    ensures |r| == if |s| <= n then |s| else n
    ensures r == s[..|r|]
  {
    if |s| <= n then s else s[..n]
  }

  /** An unset field for the empty string, the string itself otherwise. */
  function NonEmpty(s: string): (r: Option<string>)
    ensures r.None? <==> s == []
    ensures r.Some? ==> r.value == s
  {
    if s == [] then None else Some(s)
  }

  // ASCII case folding

  /** An unset field reads back as the empty string, so `NonEmpty` loses nothing, and it never stores an empty string. */
  lemma NonEmptyGetOr(s: string)
    ensures NonEmpty(s).GetOr([]) == s
    ensures NonEmpty(s) != Some([])
  {
  }

  predicate IsUpper(c: char) { 'A' <= c <= 'Z' }
  predicate IsLower(c: char) { 'a' <= c <= 'z' }
  predicate IsAlpha(c: char) { IsUpper(c) || IsLower(c) }
  predicate IsDigit(c: char) { '0' <= c <= '9' }

  function LowerChar(c: char): char {
    if IsUpper(c) then (c as int + 32) as char else c
  }

  /** `s` with every ASCII upper-case letter replaced by its lower-case form. */
  function Lower(s: string): string {
    seq(|s|, i requires 0 <= i < |s| => LowerChar(s[i]))
  }

  lemma LowerIdempotent(s: string)
    ensures Lower(Lower(s)) == Lower(s)
  {
  }

  /** Case folding never produces a character that is not a lower-case letter out of a different one. */
  lemma LowerAvoids(s: string, xs: set<char>)
    requires Avoids(s, xs)
    requires forall c :: c in xs ==> !IsLower(c)
    ensures Avoids(Lower(s), xs)
  {
    forall i | 0 <= i < |s| ensures Lower(s)[i] !in xs {
      if IsUpper(s[i]) {
        assert IsLower(Lower(s)[i]);
      }
    }
  }

  // Decimal integers

  predicate IsNumeral(t: string) {
    |t| > 0 && forall i :: 0 <= i < |t| ==> IsDigit(t[i])
  }

  function DigitChar(d: nat): (c: char)
    requires d < 10
    ensures IsDigit(c)
  {
    ('0' as int + d) as char
  }

  function DigitValue(c: char): nat
    requires IsDigit(c)
  {
    c as int - '0' as int
  }

  function NumeralValue(t: string): nat
    requires forall i :: 0 <= i < |t| ==> IsDigit(t[i])
  {
    if t == [] then 0
    else NumeralValue(t[..|t| - 1]) * 10 + DigitValue(t[|t| - 1])
  }

  /** The base-10 numeral of `n`, without leading zeros. */
  function NatToText(n: nat): (t: string)
    ensures IsNumeral(t)
    ensures NumeralValue(t) == n
  {
    if n < 10 then [DigitChar(n)]
    else
      var init := NatToText(n / 10);
      var t := init + [DigitChar(n % 10)];
      assert t[..|t| - 1] == init;
      t
  }

  /** The integer written by `t` (an optional minus sign, then one or more digits), if any. */
  function ParseInt(t: string): Option<int> {
    if |t| > 0 && t[0] == '-' && IsNumeral(t[1..]) then Some(0 - NumeralValue(t[1..]))
    else if IsNumeral(t) then Some(NumeralValue(t))
    else None
  }

  /** The decimal text of `n`; it parses back to `n` and holds only digits and a leading minus sign. */
  function IntToText(n: int): (t: string)
    ensures ParseInt(t) == Some(n)
    ensures t != [] && t[0] != '['
    ensures Avoids(t, {'/', '?', '#', '@', ':', '[', ']'})
    ensures IsDigit(t[|t| - 1])
  {
    if n < 0 then
      var t := "-" + NatToText(-n);
      assert t[1..] == NatToText(-n);
      t
    else NatToText(n)
  }

  // Percent-encoding (section 2.1 of RFC 3986)

  predicate IsHexDigit(c: char) {
    IsDigit(c) || 'A' <= c <= 'F' || 'a' <= c <= 'f'
  }

  function HexValue(c: char): (v: nat)
    requires IsHexDigit(c)
    ensures v < 16
  {
    if IsDigit(c) then c as int - '0' as int
    else if 'A' <= c <= 'F' then c as int - 'A' as int + 10
    else c as int - 'a' as int + 10
  }

  /** The upper-case hexadecimal digit for `v`, as section 2.1 of RFC 3986 recommends. */
  function HexDigit(v: nat): (c: char)
    requires v < 16
    ensures IsHexDigit(c) && HexValue(c) == v
  {
    if v < 10 then ('0' as int + v) as char else ('A' as int + v - 10) as char
  }

  /**
    Characters a path keeps as they are: the unreserved characters, the
    sub-delimiters, ':' and '@' (the pchar rule of section 3.3 of RFC 3986)
    and the segment separator '/'.
  */
  predicate KeptInPath(c: char) {
    IsAlpha(c) || IsDigit(c) || c in {'-', '.', '_', '~'}
    || c in {'!', '$', '&', '\'', '(', ')', '*', '+', ',', ';', '='}
    || c == ':' || c == '@' || c == '/'
  }

  function EncodeChar(c: char): string {
    if KeptInPath(c) || c as int >= 256 then [c]
    else ['%', HexDigit(c as int / 16), HexDigit(c as int % 16)]
  }

  /** The path text with every character outside `KeptInPath` written as `%XY`. */
  function PercentEncode(s: string): string {
    if s == [] then [] else EncodeChar(s[0]) + PercentEncode(s[1..])
  }

  /** Replaces each `%XY` with the character of code XY; a '%' not followed by two hex digits stays. */
  function PercentDecode(s: string): string {
    if s == [] then []
    else if |s| >= 3 && s[0] == '%' && IsHexDigit(s[1]) && IsHexDigit(s[2]) then
      [(16 * HexValue(s[1]) + HexValue(s[2])) as char] + PercentDecode(s[3..])
    else [s[0]] + PercentDecode(s[1..])
  }

  /** Decoding undoes encoding, for every string. */
  lemma {:induction false} DecodeEncode(s: string)
    ensures PercentDecode(PercentEncode(s)) == s
  {
    if s != [] {
      var c := s[0];
      var rest := PercentEncode(s[1..]);
      DecodeEncode(s[1..]);
      var t := EncodeChar(c) + rest;
      if KeptInPath(c) || c as int >= 256 {
        assert t[1..] == rest;
      } else {
        assert t[3..] == rest;
        assert 16 * (c as int / 16) + c as int % 16 == c as int;
      }
    }
  }

  /** An encoded path holds no '?' or '#', so it cannot run into the query or the fragment. */
  lemma {:induction false} EncodeAvoids(s: string)
    ensures Avoids(PercentEncode(s), {'?', '#'})
  {
    if s != [] {
      EncodeAvoids(s[1..]);
      var e := EncodeChar(s[0]);
      assert Avoids(e, {'?', '#'});
      AvoidsConcat(e, PercentEncode(s[1..]), {'?', '#'});
    }
  }

  /** Text with no '%' decodes to itself. */
  lemma {:induction false} DecodeWithoutPercent(s: string)
    requires '%' !in s
    ensures PercentDecode(s) == s
  {
    if s != [] {
      DecodeWithoutPercent(s[1..]);
    }
  }

  /** Text made only of characters a path keeps encodes to itself. */
  lemma {:induction false} EncodeKept(s: string)
    requires forall i :: 0 <= i < |s| ==> KeptInPath(s[i])
    ensures PercentEncode(s) == s
  {
    if s != [] {
      EncodeKept(s[1..]);
    }
  }

  /** Encoding works character by character, so it distributes over concatenation. */
  lemma {:induction false} EncodeAppend(a: string, b: string)
    ensures PercentEncode(a + b) == PercentEncode(a) + PercentEncode(b)
  {
    if a != [] {
      assert (a + b)[1..] == a[1..] + b;
      EncodeAppend(a[1..], b);
    } else {
      assert a + b == b;
    }
  }

  /** A prefix with no '%' decodes to itself, whatever follows it. */
  lemma {:induction false} DecodeAppend(a: string, b: string)
    requires '%' !in a
    ensures PercentDecode(a + b) == a + PercentDecode(b)
  {
    if a != [] {
      assert (a + b)[0] == a[0];
      assert (a + b)[1..] == a[1..] + b;
      DecodeAppend(a[1..], b);
    } else {
      assert a + b == b;
    }
  }

  /** `s` written `n` times in a row (Python's `s * n`). */
  function Repeat(s: string, n: nat): (r: string)
    ensures |r| == |s| * n
  {
    if n == 0 then [] else s + Repeat(s, n - 1)
  }

  lemma {:induction false} RepeatAvoids(s: string, n: nat, xs: set<char>)
    requires Avoids(s, xs)
    ensures Avoids(Repeat(s, n), xs)
  {
    if n > 0 {
      RepeatAvoids(s, n - 1, xs);
      AvoidsConcat(s, Repeat(s, n - 1), xs);
    }
  }
}
