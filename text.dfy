/** The string primitives the TypeScript code takes from the JavaScript runtime:
    `toLowerCase` (its ASCII part), `trim`, and the decimal text a template literal
    gives an integer (`${pageNumber + 1}`), with `parseInt` as its reading. */
module Text {

  predicate IsUpper(c: char) { 'A' <= c <= 'Z' }

  /** `toLowerCase` of one character, on the ASCII range. */
  function LowerChar(c: char): char
  {
    if IsUpper(c) then (c as int + 32) as char else c
  }

  /** `s.toLowerCase()`: a per-character map. */
  function Lower(s: string): (r: string)
    ensures |r| == |s|
    ensures forall i :: 0 <= i < |s| ==> r[i] == LowerChar(s[i])
  {
    seq(|s|, i requires 0 <= i < |s| => LowerChar(s[i]))
  }

  /** `Lower` leaves no upper-case letter behind. */
  lemma LowerHasNoUpper(s: string)
    ensures forall i :: 0 <= i < |s| ==> !IsUpper(Lower(s)[i])
  {
  }

  /** Lower-casing a second time changes nothing. */
  lemma LowerIdempotent(s: string)
    ensures Lower(Lower(s)) == Lower(s)
  {
  }

  /** ECMAScript WhiteSpace and LineTerminator code points: what `trim` removes. */
  const JS_WHITESPACE: set<char> :=
    {'\t', '\U{000B}', '\U{000C}', ' ', '\U{00A0}', '\U{FEFF}', '\U{1680}',
     '\U{2000}', '\U{2001}', '\U{2002}', '\U{2003}', '\U{2004}', '\U{2005}', '\U{2006}',
     '\U{2007}', '\U{2008}', '\U{2009}', '\U{200A}', '\U{202F}', '\U{205F}', '\U{3000}',
     '\n', '\r', '\U{2028}', '\U{2029}'}

  predicate IsJsWhiteSpace(c: char)
  {
    c in JS_WHITESPACE
  }

  predicate AllWhiteSpace(s: string)
  {
    forall i :: 0 <= i < |s| ==> IsJsWhiteSpace(s[i])
  }

  function TrimStart(s: string): (r: string)
    ensures |r| <= |s|
  {
    if s != [] && IsJsWhiteSpace(s[0]) then TrimStart(s[1..]) else s
  }

  function TrimEnd(s: string): (r: string)
    ensures |r| <= |s|
  {
    if s != [] && IsJsWhiteSpace(s[|s| - 1]) then TrimEnd(s[..|s| - 1]) else s
  }

  /** `s.trim()`. */
  function Trim(s: string): (r: string)
    ensures |r| <= |s|
  {
    TrimEnd(TrimStart(s))
  }

  /** The number of whitespace characters `s` starts with. */
  function LeadingSpaces(s: string): (k: nat)
    ensures k <= |s|
  {
    if s != [] && IsJsWhiteSpace(s[0]) then 1 + LeadingSpaces(s[1..]) else 0
  }

  /** Where the whitespace `s` ends with begins. */
  function TrailingStart(s: string): (k: nat)
    ensures k <= |s|
  {
    if s != [] && IsJsWhiteSpace(s[|s| - 1]) then TrailingStart(s[..|s| - 1]) else |s|
  }

  lemma AllWhiteSpaceConcat(a: string, b: string)
    requires AllWhiteSpace(a) && AllWhiteSpace(b)
    ensures AllWhiteSpace(a + b)
  {
  }

  lemma {:induction false} TrimStartSplits(s: string)
    ensures AllWhiteSpace(s[..LeadingSpaces(s)]) && TrimStart(s) == s[LeadingSpaces(s)..]
    ensures TrimStart(s) != [] ==> !IsJsWhiteSpace(TrimStart(s)[0])
  {
    if s != [] && IsJsWhiteSpace(s[0]) {
      var t := s[1..];
      TrimStartSplits(t);
      var k := LeadingSpaces(t);
      assert s[..k + 1] == [s[0]] + t[..k];
      AllWhiteSpaceConcat([s[0]], t[..k]);
      assert s[k + 1..] == t[k..];
    } else {
      assert s[0..] == s;
    }
  }

  lemma {:induction false} TrimEndSplits(s: string)
    ensures AllWhiteSpace(s[TrailingStart(s)..]) && TrimEnd(s) == s[..TrailingStart(s)]
    ensures TrimEnd(s) != [] ==> !IsJsWhiteSpace(TrimEnd(s)[|TrimEnd(s)| - 1])
  {
    if s != [] && IsJsWhiteSpace(s[|s| - 1]) {
      var t := s[..|s| - 1];
      TrimEndSplits(t);
      var k := TrailingStart(t);
      assert s[k..] == t[k..] + [s[|s| - 1]];
      AllWhiteSpaceConcat(t[k..], [s[|s| - 1]]);
      assert s[..k] == t[..k];
    } else {
      assert s[..|s|] == s;
    }
  }

  lemma SlicesOfSuffix<X>(s: seq<X>, i: nat, k: nat)
    requires i + k <= |s|
    ensures s[i..][..k] == s[i..i + k] && s[i..][k..] == s[i + k..]
  {
  }

  /** `trim` removes a whitespace prefix and a whitespace suffix and keeps the middle:
      the result neither starts nor ends with whitespace. */
  lemma TrimSplits(s: string)
    ensures var i := LeadingSpaces(s); var j := i + TrailingStart(s[i..]);
      j <= |s| && AllWhiteSpace(s[..i]) && AllWhiteSpace(s[j..]) && Trim(s) == s[i..j]
    ensures Trim(s) != [] ==> !IsJsWhiteSpace(Trim(s)[0]) && !IsJsWhiteSpace(Trim(s)[|Trim(s)| - 1])
  {
    var i := LeadingSpaces(s);
    TrimStartSplits(s);
    var t := s[i..];
    assert TrimStart(s) == t;
    TrimEndSplits(t);
    var k := TrailingStart(t);
    assert Trim(s) == t[..k];
    SlicesOfSuffix(s, i, k);
    if Trim(s) != [] {
      assert Trim(s)[0] == t[0];
    }
  }

  lemma {:induction false} TrimStartOfPadded(lead: string, s: string)
    requires AllWhiteSpace(lead)
    requires s == [] || !IsJsWhiteSpace(s[0])
    ensures TrimStart(lead + s) == s
  {
    if lead != [] {
      assert (lead + s)[1..] == lead[1..] + s;
      TrimStartOfPadded(lead[1..], s);
    } else {
      assert lead + s == s;
    }
  }

  lemma {:induction false} TrimEndOfPadded(s: string, trail: string)
    requires AllWhiteSpace(trail)
    requires s == [] || !IsJsWhiteSpace(s[|s| - 1])
    ensures TrimEnd(s + trail) == s
  {
    if trail != [] {
      var t := trail[..|trail| - 1];
      assert (s + trail)[..|s + trail| - 1] == s + t;
      TrimEndOfPadded(s, t);
    } else {
      assert s + trail == s;
    }
  }

  /** Surrounding a string that has no whitespace at either end with whitespace does not
      change what `trim` returns. */
  lemma TrimOfPadded(lead: string, s: string, trail: string)
    requires AllWhiteSpace(lead) && AllWhiteSpace(trail)
    requires s == [] || (!IsJsWhiteSpace(s[0]) && !IsJsWhiteSpace(s[|s| - 1]))
    ensures Trim(lead + s + trail) == s
  {
    if s == [] {
      assert AllWhiteSpace(lead + trail);
      assert lead + s + trail == lead + trail;
      AllWhiteSpaceTrimsToEmpty(lead + trail);
    } else {
      assert lead + s + trail == lead + (s + trail);
      TrimStartOfPadded(lead, s + trail);
      TrimEndOfPadded(s, trail);
    }
  }

  lemma Regroup<X>(lead: seq<X>, s: seq<X>, trail: seq<X>, i: nat, j: nat)
    requires i <= j <= |s|
    ensures lead + s + trail == (lead + s[..i]) + s[i..j] + (s[j..] + trail)
  {
    assert s == s[..i] + s[i..j] + s[j..];
  }

  /** Whitespace added around any string is removed by `trim`. */
  lemma TrimIgnoresPadding(lead: string, s: string, trail: string)
    requires AllWhiteSpace(lead) && AllWhiteSpace(trail)
    ensures Trim(lead + s + trail) == Trim(s)
  {
    TrimSplits(s);
    var i := LeadingSpaces(s);
    var j := i + TrailingStart(s[i..]);
    var core := s[i..j];
    Regroup(lead, s, trail, i, j);
    AllWhiteSpaceConcat(lead, s[..i]);
    AllWhiteSpaceConcat(s[j..], trail);
    TrimOfPadded(lead + s[..i], core, s[j..] + trail);
  }

  lemma {:induction false} AllWhiteSpaceTrimsToEmpty(s: string)
    requires AllWhiteSpace(s)
    ensures TrimStart(s) == [] && Trim(s) == []
  {
    if s != [] {
      AllWhiteSpaceTrimsToEmpty(s[1..]);
    }
  }

  /** Trimming twice is trimming once. */
  lemma TrimIdempotent(s: string)
    ensures Trim(Trim(s)) == Trim(s)
  {
    TrimSplits(s);
    var t := Trim(s);
    TrimOfPadded([], t, []);
    assert [] + t + [] == t;
  }

  // ----- decimal text of integers -----

  function DigitChar(d: nat): (c: char)
    requires d < 10
  {
    ('0' as int + d) as char
  }

  function DigitValue(c: char): nat
  {
    if '0' <= c <= '9' then c as int - '0' as int else 0
  }

  predicate IsDigit(c: char) { '0' <= c <= '9' }

  /** The decimal digits of a natural number, most significant first. */
  function NatToString(n: nat): (s: string)
    ensures |s| > 0
    ensures forall i :: 0 <= i < |s| ==> IsDigit(s[i])
    decreases n
  {
    if n < 10 then [DigitChar(n)] else NatToString(n / 10) + [DigitChar(n % 10)]
  }

  /** `${n}` for an integer `n`: a minus sign for negative numbers, then the digits. */
  function IntToString(n: int): (s: string)
    ensures |s| > 0
  {
    if n < 0 then "-" + NatToString(-n) else NatToString(n)
  }

  /** The value of a string of decimal digits. */
  function ParseNat(s: string): nat
  {
    if s == [] then 0 else 10 * ParseNat(s[..|s| - 1]) + DigitValue(s[|s| - 1])
  }

  /** `parseInt(s, 10)` on an optional minus sign followed by digits. */
  function ParseInt(s: string): int
  {
    if |s| > 0 && s[0] == '-' then 0 - ParseNat(s[1..]) as int else ParseNat(s)
  }

  lemma {:induction false} ParseNatToString(n: nat)
    ensures ParseNat(NatToString(n)) == n
    decreases n
  {
    var s := NatToString(n);
    if n >= 10 {
      ParseNatToString(n / 10);
      assert s[..|s| - 1] == NatToString(n / 10);
    }
  }

  /** Reading back the text of an integer gives that integer. */
  lemma ParseIntToString(n: int)
    ensures ParseInt(IntToString(n)) == n
  {
    if n < 0 {
      ParseNatToString(-n);
      assert ("-" + NatToString(-n))[1..] == NatToString(-n);
    } else {
      ParseNatToString(n);
    }
  }
}
