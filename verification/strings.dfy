/** Character and string helpers standing in for the PHP string functions the
    handlers call. A `string` stands for a PHP byte string: one character per
    byte, and only ASCII letters have a case. */
module Strings {

  predicate IsUpper(c: char) { 'A' <= c <= 'Z' }

  predicate IsLower(c: char) { 'a' <= c <= 'z' }

  predicate IsDigit(c: char) { '0' <= c <= '9' }

  predicate AllDigits(s: string) { forall i :: 0 <= i < |s| ==> IsDigit(s[i]) }

  /** `p` is a prefix of `s`. */
  predicate IsPrefix(p: string, s: string) { |p| <= |s| && s[..|p|] == p }

  /** `p` is a suffix of `s`. */
  predicate IsSuffix(p: string, s: string) { |p| <= |s| && s[|s| - |p|..] == p }

  /** `sub` occurs somewhere in `s` (SQL `LIKE '%sub%'` without wildcards). */
  predicate Contains(s: string, sub: string)
    decreases |s|
  {
    IsPrefix(sub, s) || (|s| > 0 && Contains(s[1..], sub))
  }

  /** Byte-wise ASCII lower-casing of one character (PHP 8.2+ `strtolower`). */
  function LowerChar(c: char): char {
    if IsUpper(c) then (c as int + 32) as char else c
  }

  /** PHP `strtolower`. */
  function ToLower(s: string): (r: string)
    ensures |r| == |s|
    ensures forall i :: 0 <= i < |s| ==> r[i] == LowerChar(s[i])
  {
    seq(|s|, i requires 0 <= i < |s| => LowerChar(s[i]))
  }

  /** Case-insensitive containment, as `name ILIKE '%sub%'` for a pattern
      without wildcards. */
  predicate ContainsIgnoringCase(s: string, sub: string) {
    Contains(ToLower(s), ToLower(sub))
  }

  /** A string PHP's `empty()` treats as empty: `""` and `"0"`. */
  predicate IsEmptyString(s: string) { s == "" || s == "0" }

  /** The characters PHP `trim` strips by default: space, tab, LF, CR, NUL
      and vertical tab. */
  predicate IsTrimSpace(c: char) {
    c == ' ' || c == '\t' || c == '\n' || c == '\r' || c == '\0' || c == '\U{B}'
  }

  function TrimLeft(s: string): (r: string)
    ensures IsSuffix(r, s)
    ensures forall i :: 0 <= i < |s| - |r| ==> IsTrimSpace(s[i])
    ensures r == [] || !IsTrimSpace(r[0])
    decreases |s|
  {
    if |s| > 0 && IsTrimSpace(s[0]) then
      var r := TrimLeft(s[1..]);
      assert s[1..][|s| - 1 - |r|..] == s[|s| - |r|..];
      assert forall i :: 1 <= i < |s| ==> s[i] == s[1..][i - 1];
      r
    else s
  }

  function TrimRight(s: string): (r: string)
    ensures IsPrefix(r, s)
    ensures forall i :: |r| <= i < |s| ==> IsTrimSpace(s[i])
    ensures r == [] || !IsTrimSpace(r[|r| - 1])
    decreases |s|
  {
    if |s| > 0 && IsTrimSpace(s[|s| - 1]) then TrimRight(s[..|s| - 1]) else s
  }

  /** PHP `trim` with its default character list. */
  function Trim(s: string): (r: string)
    ensures |r| <= |s|
    ensures r == [] || (!IsTrimSpace(r[0]) && !IsTrimSpace(r[|r| - 1]))
  {
    var left := TrimLeft(s);
    var r := TrimRight(left);
    assert r != [] ==> r[0] == left[0];
    r
  }

  /** The trimmed string is a slice of `s` outside which there are only
      trim characters. */
  lemma TrimIsMiddle(s: string)
    ensures exists i, j :: 0 <= i <= j <= |s| && Trim(s) == s[i..j]
                          && forall k :: 0 <= k < i || j <= k < |s| ==> IsTrimSpace(s[k])
  {
    var left := TrimLeft(s);
    var r := TrimRight(left);
    var i := |s| - |left|;
    TrimSlice(s, left, r);
    assert Trim(s) == r;
    var j := i + |r|;
    assert 0 <= i <= j <= |s| && Trim(s) == s[i..j];
    assert forall k :: 0 <= k < i || j <= k < |s| ==> IsTrimSpace(s[k]);
  }

  /** `r`, cut from the suffix `left` of `s`, is a slice of `s` followed
      only by trim characters. */
  lemma TrimSlice(s: string, left: string, r: string)
    requires IsSuffix(left, s) && IsPrefix(r, left)
    requires forall k :: |r| <= k < |left| ==> IsTrimSpace(left[k])
    ensures var i := |s| - |left|;
            && r == s[i..i + |r|]
            && (forall k :: i + |r| <= k < |s| ==> IsTrimSpace(s[k]))
  {
    var i := |s| - |left|;
    assert left == s[i..];
    assert forall j :: 0 <= j < |r| ==> r[j] == left[j] == s[i + j];
    forall k | i + |r| <= k < |s| ensures IsTrimSpace(s[k]) {
      assert s[k] == left[k - i];
    }
  }

  lemma TrimIdempotent(s: string)
    ensures Trim(Trim(s)) == Trim(s)
  {
    var t := Trim(s);
    if |t| > 0 {
      assert !IsTrimSpace(t[0]);
      assert TrimLeft(t) == t;
      assert TrimRight(t) == t;
    }
  }

  // ---------------------------------------------------------------------
  // PHP `intval` / `(int)` of a string
  // ---------------------------------------------------------------------

  /** Bounds of PHP's 64-bit integer. */
  const IntMax: int := 0x7FFF_FFFF_FFFF_FFFF
  const IntMin: int := -0x8000_0000_0000_0000

  /** Whitespace PHP allows in front of a numeric string. */
  predicate IsNumericSpace(c: char) {
    c == ' ' || c == '\t' || c == '\n' || c == '\r' || c == '\U{B}' || c == '\U{C}'
  }

  function SkipNumericSpace(s: string): (r: string)
    ensures IsSuffix(r, s)
    ensures r == [] || !IsNumericSpace(r[0])
    decreases |s|
  {
    if |s| > 0 && IsNumericSpace(s[0]) then
      var r := SkipNumericSpace(s[1..]);
      assert s[1..][|s| - 1 - |r|..] == s[|s| - |r|..];
      r
    else s
  }

  /** The longest prefix of `s` made of decimal digits. */
  function LeadingDigits(s: string): (r: string)
    ensures IsPrefix(r, s) && AllDigits(r)
    ensures |r| == |s| || !IsDigit(s[|r|])
    decreases |s|
  {
    if |s| > 0 && IsDigit(s[0]) then [s[0]] + LeadingDigits(s[1..]) else []
  }

  /** The value of a string of decimal digits. */
  function DigitsValue(ds: string): (n: nat)
    requires AllDigits(ds)
    decreases |ds|
  {
    if |ds| == 0 then 0
    else 10 * DigitsValue(ds[..|ds| - 1]) + (ds[|ds| - 1] as int - '0' as int)
  }

  function Clamp(n: int): (r: int)
    ensures IntMin <= r <= IntMax
    ensures IntMin <= n <= IntMax ==> r == n
  {
    if n < IntMin then IntMin else if n > IntMax then IntMax else n
  }

  /** PHP `intval($s)` on a string of integer form: leading whitespace, an
      optional sign and the leading digits; trailing text after them is
      ignored, a string with no leading digits is 0, and a value beyond the
      64-bit range saturates. A fraction or exponent, which PHP reads as a
      float, is treated as trailing text. */
  function Intval(s: string): (r: int)
    ensures IntMin <= r <= IntMax
  {
    var t := SkipNumericSpace(s);
    if |t| > 0 && (t[0] == '-' || t[0] == '+') then
      var n: int := DigitsValue(LeadingDigits(t[1..]));
      Clamp(if t[0] == '-' then -n else n)
    else
      Clamp(DigitsValue(LeadingDigits(t)))
  }

  lemma IntvalOfDigits(ds: string)
    requires |ds| > 0 && IsDigit(ds[0]) && AllDigits(ds)
    ensures Intval(ds) == Clamp(DigitsValue(ds))
  {
    assert !IsNumericSpace(ds[0]);
    assert SkipNumericSpace(ds) == ds;
    var l := LeadingDigits(ds);
    assert |l| == |ds|;
    assert l == ds[..|l|] == ds;
  }

  /** Skipping leading whitespace stops at the first other character. */
  lemma {:induction false} SkipSpacesOf(ws: string, x: string)
    requires forall k :: 0 <= k < |ws| ==> IsNumericSpace(ws[k])
    requires x == [] || !IsNumericSpace(x[0])
    ensures SkipNumericSpace(ws + x) == x
    decreases |ws|
  {
    if |ws| > 0 {
      assert (ws + x)[1..] == ws[1..] + x;
      SkipSpacesOf(ws[1..], x);
    } else {
      assert ws + x == x;
    }
  }

  /** The leading digits of a digit run followed by a non-digit are that run. */
  lemma {:induction false} LeadingDigitsOf(ds: string, rest: string)
    requires AllDigits(ds)
    requires rest == [] || !IsDigit(rest[0])
    ensures LeadingDigits(ds + rest) == ds
    decreases |ds|
  {
    if |ds| > 0 {
      assert (ds + rest)[1..] == ds[1..] + rest;
      LeadingDigitsOf(ds[1..], rest);
      assert ds == [ds[0]] + ds[1..];
    } else {
      assert ds + rest == rest;
    }
  }

  /** A sign PHP accepts in front of the digits: none, `+` or `-`. */
  predicate IsSign(sg: string) { |sg| <= 1 && (|sg| == 1 ==> sg[0] == '+' || sg[0] == '-') }

  predicate IsMinus(sg: string) { |sg| == 1 && sg[0] == '-' }

  /** `intval` of optional whitespace, an optional sign, a run of digits
      and text that does not continue the run is the signed value of those
      digits, saturated: `intval(" -42abc")` is -42. */
  lemma IntvalOfNumber(ws: string, sg: string, ds: string, rest: string)
    requires forall k :: 0 <= k < |ws| ==> IsNumericSpace(ws[k])
    requires IsSign(sg)
    requires |ds| > 0 && AllDigits(ds)
    requires rest == [] || !IsDigit(rest[0])
    ensures var n: int := DigitsValue(ds);
            Intval(ws + sg + ds + rest) == Clamp(if IsMinus(sg) then -n else n)
  {
    var t := sg + (ds + rest);
    Regroup(ws, sg, ds, rest);
    IntvalAfterSpaces(ws, t);
    LeadingDigitsOf(ds, rest);
    IntvalAfterSign(t, sg, ds + rest, ds);
  }

  lemma Regroup(ws: string, sg: string, ds: string, rest: string)
    requires |ds| > 0
    ensures ws + sg + ds + rest == ws + (sg + (ds + rest))
    ensures (sg + (ds + rest))[0] == if |sg| == 0 then ds[0] else sg[0]
  {
  }

  /** `intval` of a sign followed by text whose leading digits are `ds`. */
  lemma IntvalAfterSign(t: string, sg: string, u: string, ds: string)
    requires IsSign(sg) && t == sg + u
    requires |ds| > 0 && AllDigits(ds) && LeadingDigits(u) == ds
    requires |u| > 0 && IsDigit(u[0])
    ensures var n: int := DigitsValue(ds);
            Intval(t) == Clamp(if IsMinus(sg) then -n else n)
  {
    if |sg| == 0 {
      assert t == u;
      IntvalOfText(t, DigitsValue(ds), false);
    } else {
      assert t[0] == sg[0] && t[1..] == u;
      IntvalOfText(t, DigitsValue(ds), sg[0] == '-');
    }
  }

  /** `intval` of a text with no leading whitespace, given the value `n` of
      the digits after its optional sign. */
  lemma IntvalOfText(t: string, n: nat, minus: bool)
    requires |t| > 0 && !IsNumericSpace(t[0])
    requires n == DigitsValue(LeadingDigits(if t[0] == '-' || t[0] == '+' then t[1..] else t))
    requires minus <==> t[0] == '-'
    ensures var m: int := n;
            Intval(t) == Clamp(if minus then -m else m)
  {
  }

  /** Leading whitespace does not change `intval`. */
  lemma IntvalAfterSpaces(ws: string, t: string)
    requires forall k :: 0 <= k < |ws| ==> IsNumericSpace(ws[k])
    requires t == [] || !IsNumericSpace(t[0])
    ensures Intval(ws + t) == Intval(t)
  {
    SkipSpacesOf(ws, t);
    SkipSpacesOf([], t);
    assert [] + t == t;
  }

  /** Without digits after the optional whitespace and sign, `intval` is 0;
      with no sign, the text must not start with one either. */
  lemma IntvalOfNoDigits(ws: string, sg: string, rest: string)
    requires forall k :: 0 <= k < |ws| ==> IsNumericSpace(ws[k])
    requires IsSign(sg)
    requires rest == [] || !IsDigit(rest[0])
    requires |sg| == 0 && rest != [] ==> rest[0] != '+' && rest[0] != '-' && !IsNumericSpace(rest[0])
    ensures Intval(ws + sg + rest) == 0
  {
    var t := sg + rest;
    assert ws + sg + rest == ws + t;
    assert t == [] || !IsNumericSpace(t[0]) by {
      if |sg| > 0 {
        assert t[0] == sg[0];
      }
    }
    IntvalAfterSpaces(ws, t);
    LeadingDigitsOf([], rest);
    IntvalAfterSignNoDigits(t, sg, rest);
  }

  /** `intval` of a sign followed by text that does not start with a digit. */
  lemma IntvalAfterSignNoDigits(t: string, sg: string, u: string)
    requires IsSign(sg) && t == sg + u
    requires LeadingDigits(u) == []
    requires |sg| == 0 && u != [] ==> u[0] != '+' && u[0] != '-' && !IsNumericSpace(u[0])
    ensures Intval(t) == 0
  {
    if |sg| == 0 {
      assert t == u;
    } else {
      assert t[0] == sg[0] && t[1..] == u;
    }
  }
}

