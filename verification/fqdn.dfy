/** The domain endpoint's string logic: normalising and validating the new
    domain, and rebuilding the stored FQDN around it while keeping the old
    scheme and port. */
module Fqdn {
  import opened Wrappers
  import opened Strings

  /** A character of the class `[a-z0-9.-]`. */
  predicate IsDomainChar(c: char) { IsLower(c) || IsDigit(c) || c == '.' || c == '-' }

  /** A non-empty string over `[a-z0-9.-]`. */
  predicate IsValidDomain(d: string) {
    |d| > 0 && forall i :: 0 <= i < |d| ==> IsDomainChar(d[i])
  }

  /** `preg_match('/^[a-z0-9.-]+$/', d)`: PCRE's `$` also matches just
      before a final newline. */
  predicate MatchesDomainPattern(d: string) {
    IsValidDomain(d) || (|d| >= 2 && d[|d| - 1] == '\n' && IsValidDomain(d[..|d| - 1]))
  }

  /** `strtolower(trim($raw))`: the lower-cased slice of `raw` left after
      the trim characters at both ends are dropped. */
  function NormaliseDomain(raw: string): (d: string)
    ensures exists i, j :: 0 <= i <= j <= |raw| && d == ToLower(raw[i..j])
                          && forall k :: 0 <= k < i || j <= k < |raw| ==> IsTrimSpace(raw[k])
    ensures forall i :: 0 <= i < |d| ==> !IsUpper(d[i])
    ensures d == [] || (!IsTrimSpace(d[0]) && !IsTrimSpace(d[|d| - 1]))
  {
    NormaliseIsLoweredMiddle(raw);
    ToLower(Trim(raw))
  }

  /** The facts NormaliseDomain promises, about its defining expression. */
  lemma NormaliseIsLoweredMiddle(raw: string)
    ensures var d := ToLower(Trim(raw));
            exists i, j :: 0 <= i <= j <= |raw| && d == ToLower(raw[i..j])
                          && forall k :: 0 <= k < i || j <= k < |raw| ==> IsTrimSpace(raw[k])
    ensures var d := ToLower(Trim(raw));
            d == [] || (!IsTrimSpace(d[0]) && !IsTrimSpace(d[|d| - 1]))
  {
    var left := TrimLeft(raw);
    var t := TrimRight(left);
    var i := |raw| - |left|;
    TrimSlice(raw, left, t);
    assert Trim(raw) == t;
    LowerKeepsEnds(t);
    assert ToLower(t) == ToLower(raw[i..i + |t|]);
  }

  /** Lower-casing never turns a character into a trim character. */
  lemma LowerKeepsEnds(t: string)
    requires t == [] || (!IsTrimSpace(t[0]) && !IsTrimSpace(t[|t| - 1]))
    ensures var d := ToLower(t);
            d == [] || (!IsTrimSpace(d[0]) && !IsTrimSpace(d[|d| - 1]))
  {
    assert forall c :: IsTrimSpace(LowerChar(c)) ==> IsTrimSpace(c);
  }

  /** A normalised domain never ends in a newline, so the pattern check is
      exactly the character-class check. */
  lemma NormalisedPatternIsCharClass(raw: string)
    ensures MatchesDomainPattern(NormaliseDomain(raw)) <==> IsValidDomain(NormaliseDomain(raw))
  {
    var d := NormaliseDomain(raw);
    assert d == [] || d[|d| - 1] != '\n';
  }

  /** `preg_replace('/[a-z0-9.-]/', '', d)`: the characters outside the
      class, in order. */
  function InvalidChars(d: string): (r: string)
    ensures |r| <= |d|
    ensures forall i :: 0 <= i < |r| ==> !IsDomainChar(r[i])
    ensures forall c :: c in r <==> c in d && !IsDomainChar(c)
    ensures forall c :: multiset(r)[c] == if IsDomainChar(c) then 0 else multiset(d)[c]
    decreases |d|
  {
    if |d| == 0 then []
    else
      var rest := InvalidChars(d[1..]);
      assert d == [d[0]] + d[1..];
      assert forall c :: c in d <==> c == d[0] || c in d[1..];
      if IsDomainChar(d[0]) then rest else [d[0]] + rest
  }

  /** `preg_replace` keeps the order of the input: the invalid characters of
      a concatenation are those of each part, in turn. */
  lemma {:induction false} InvalidCharsAppend(a: string, b: string)
    ensures InvalidChars(a + b) == InvalidChars(a) + InvalidChars(b)
    decreases |a|
  {
    if |a| > 0 {
      assert (a + b)[0] == a[0];
      assert (a + b)[1..] == a[1..] + b;
      InvalidCharsAppend(a[1..], b);
    } else {
      assert a + b == b;
    }
  }

  /** A domain is rejected with no invalid characters to show only when it
      is empty. */
  lemma ValidIffNoInvalidChars(d: string)
    ensures IsValidDomain(d) <==> |d| > 0 && InvalidChars(d) == []
  {
    if |d| > 0 && InvalidChars(d) == [] {
      forall i | 0 <= i < |d| ensures IsDomainChar(d[i]) {
        assert d[i] in d;
      }
    }
    var r := InvalidChars(d);
    if |r| > 0 {
      assert r[0] in r;
    }
  }

  // ---------------------------------------------------------------------
  // Scheme and port of the stored FQDN
  // ---------------------------------------------------------------------

  const Http: string := "http://"
  const Https: string := "https://"

  /** The scheme `#^(https?)://#i` finds, lower-cased with `://` appended,
      or `http://` when the FQDN has none. */
  function Scheme(fqdn: string): (r: string)
    ensures r == Http || r == Https
    ensures r == Https <==> |fqdn| >= 8 && ToLower(fqdn[..8]) == Https
  {
    if |fqdn| >= 8 && ToLower(fqdn[..8]) == Https then Https
    else if |fqdn| >= 7 && ToLower(fqdn[..7]) == Http then Http
    else Http
  }

  /** The longest suffix of `s` made of digits. */
  function TrailingDigits(s: string): (r: string)
    ensures IsSuffix(r, s) && AllDigits(r)
    ensures |r| == |s| || !IsDigit(s[|s| - |r| - 1])
    decreases |s|
  {
    if |s| > 0 && IsDigit(s[|s| - 1]) then
      var r := TrailingDigits(s[..|s| - 1]);
      TrailingStep(s, r);
      r + [s[|s| - 1]]
    else []
  }

  /** One more digit at the end extends the trailing run by that digit. */
  lemma TrailingStep(s: string, r: string)
    requires |s| > 0 && IsDigit(s[|s| - 1])
    requires IsSuffix(r, s[..|s| - 1]) && AllDigits(r)
    requires |r| == |s| - 1 || !IsDigit(s[|s| - |r| - 2])
    ensures var q := r + [s[|s| - 1]];
            && IsSuffix(q, s) && AllDigits(q)
            && (|q| == |s| || !IsDigit(s[|s| - |q| - 1]))
  {
    var n := |s|;
    var init := s[..n - 1];
    var q := r + [s[n - 1]];
    var t := s[n - |q|..];
    assert init[n - 1 - |r|..] == r;
    forall k | 0 <= k < |q| ensures q[k] == t[k] && IsDigit(q[k]) {
      if k < |r| {
        assert q[k] == r[k] == init[n - 1 - |r| + k];
      }
    }
    assert q == t;
  }

  /** The text `#:(\d+)$#` is anchored against: `$` matches at the end, or
      before a final newline. */
  function PortSubject(fqdn: string): string {
    if |fqdn| > 0 && fqdn[|fqdn| - 1] == '\n' then fqdn[..|fqdn| - 1] else fqdn
  }

  /** The trailing `:digits` of the stored FQDN, or "" when it has none. */
  function Port(fqdn: string): (r: string)
    ensures r == [] || (|r| >= 2 && r[0] == ':' && AllDigits(r[1..]) && IsSuffix(r, PortSubject(fqdn)))
  {
    var s := PortSubject(fqdn);
    var ds := TrailingDigits(s);
    if 0 < |ds| < |s| && s[|s| - |ds| - 1] == ':' then
      ColonDigitsSuffix(s, ds);
      ":" + ds
    else ""
  }

  /** A colon in front of a digit suffix makes `:digits` a suffix too. */
  lemma ColonDigitsSuffix(s: string, ds: string)
    requires IsSuffix(ds, s) && AllDigits(ds) && 0 < |ds| < |s| && s[|s| - |ds| - 1] == ':'
    ensures var r := ":" + ds;
            |r| >= 2 && r[0] == ':' && AllDigits(r[1..]) && IsSuffix(r, s)
  {
    var r := ":" + ds;
    var n := |s|;
    assert r[1..] == ds;
    assert s[n - |ds|..] == ds;
    forall k | 0 <= k < |r| ensures r[k] == s[n - |r| + k] {
      if k > 0 {
        assert r[k] == ds[k - 1];
      }
    }
    assert s[n - |r|..] == r;
  }

  /** The port is the whole trailing `:digits`: whenever the subject ends in
      `:` and digits, those digits are the port. */
  lemma PortComplete(fqdn: string, ds: string)
    requires |ds| > 0 && AllDigits(ds) && IsSuffix(":" + ds, PortSubject(fqdn))
    ensures Port(fqdn) == ":" + ds
  {
    var s := PortSubject(fqdn);
    var t := TrailingDigits(s);
    var n := |s|;
    assert s[n - |ds| - 1] == ':';
    assert forall k :: n - |ds| <= k < n ==> s[k] == ds[k - (n - |ds|)];
    assert forall k :: n - |t| <= k < n ==> s[k] == t[k - (n - |t|)];
    assert |t| == |ds|;
    assert t == s[n - |ds|..] == ds;
  }

  /** No port is found when the text after the last non-digit, non-colon
      position `j` holds no colon. */
  lemma NoPortAfter(s: string, j: int)
    requires 0 <= j < |s| && !IsDigit(s[j]) && s[j] != ':'
    requires forall k :: j < k < |s| ==> s[k] != ':'
    requires s[|s| - 1] != '\n'
    ensures Port(s) == ""
  {
    var t := TrailingDigits(s);
    var n := |s|;
    assert PortSubject(s) == s;
    assert s[n - |t|..] == t;
    forall k | n - |t| <= k < n ensures IsDigit(s[k]) {
      assert s[k] == t[k - (n - |t|)];
    }
    assert j < n - |t|;
    assert |t| < n ==> s[n - |t| - 1] != ':';
  }

  /** `$protocol . $newDomain . $port`, where protocol and port come from the
      current FQDN when it is not PHP-empty. */
  function Rebuild(current: Option<string>, domain: string): string {
    if current.None? || IsEmptyString(current.value) then Http + domain
    else Scheme(current.value) + domain + Port(current.value)
  }

  /** The scheme and port Rebuild preserves from `current`. */
  function PreservedScheme(current: Option<string>): string {
    if current.None? || IsEmptyString(current.value) then Http else Scheme(current.value)
  }

  function PreservedPort(current: Option<string>): string {
    if current.None? || IsEmptyString(current.value) then "" else Port(current.value)
  }

  /** Reading the scheme back from a rebuilt FQDN gives the scheme put in. */
  lemma SchemeOfRebuilt(scheme: string, d: string, port: string)
    requires scheme == Http || scheme == Https
    requires IsValidDomain(d)
    ensures Scheme(scheme + d + port) == scheme
  {
    var n := scheme + d + port;
    if scheme == Https {
      assert n[..8] == Https;
    } else {
      assert n[..7] == Http;
      if |n| >= 8 {
        assert n[..8][4] == ':';
        assert ToLower(n[..8])[4] == ':';
      }
    }
  }

  /** Reading the port back from a rebuilt FQDN gives the port put in. */
  lemma PortOfRebuilt(scheme: string, d: string, port: string)
    requires scheme == Http || scheme == Https
    requires IsValidDomain(d)
    requires port == [] || (|port| >= 2 && port[0] == ':' && AllDigits(port[1..]))
    ensures Port(scheme + d + port) == port
  {
    var n := scheme + d + port;
    assert n[|n| - 1] != '\n';
    assert PortSubject(n) == n;
    if port == [] {
      assert n == scheme + d;
      assert forall k :: |scheme| <= k < |n| ==> n[k] == d[k - |scheme|];
      assert n[|scheme| - 1] == '/';
      NoPortAfter(n, |scheme| - 1);
    } else {
      assert port == ":" + port[1..];
      assert n[|n| - |port|..] == port;
      PortComplete(n, port[1..]);
    }
  }

  /** The new FQDN keeps the scheme and port taken from the current one and
      carries the new domain between them. */
  lemma RebuildPreserves(current: Option<string>, d: string)
    requires IsValidDomain(d)
    ensures var n := Rebuild(current, d);
            && n == PreservedScheme(current) + d + PreservedPort(current)
            && Scheme(n) == PreservedScheme(current)
            && Port(n) == PreservedPort(current)
  {
    var s := PreservedScheme(current);
    var p := PreservedPort(current);
    assert Rebuild(current, d) == s + d + p;
    SchemeOfRebuilt(s, d, p);
    PortOfRebuilt(s, d, p);
  }

  /** Rebuilding again from the new FQDN with the same domain changes nothing. */
  lemma RebuildIdempotent(current: Option<string>, d: string)
    requires IsValidDomain(d)
    ensures Rebuild(Some(Rebuild(current, d)), d) == Rebuild(current, d)
  {
    var n := Rebuild(current, d);
    RebuildPreserves(current, d);
    assert !IsEmptyString(n) by {
      assert n[0] == 'h';
    }
  }

  /** The worked examples: scheme and port survive; a bare host falls back to
      `http://` with no port. */
  lemma RebuildKeepsSchemeAndPort()
    ensures Rebuild(Some(Https + "old.example.com" + ":8443"), "new.example.com") == Https + "new.example.com" + ":8443"
  {
    var host := "old.example.com";
    var before := Https + host + ":8443";
    assert IsValidDomain(host);
    assert AllDigits(":8443"[1..]);
    SchemeOfRebuilt(Https, host, ":8443");
    PortOfRebuilt(Https, host, ":8443");
    assert !IsEmptyString(before) by { assert before[0] == 'h'; }
    assert Rebuild(Some(before), "new.example.com") == Https + "new.example.com" + ":8443";
  }

  lemma RebuildBareHost()
    ensures Rebuild(Some("myapp.example.com"), "foo.bar") == "http://foo.bar"
  {
    var bare := "myapp.example.com";
    assert ToLower(bare[..8]) == "myapp.ex";
    assert ToLower(bare[..7]) == "myapp.e";
    NoPortAfter(bare, |bare| - 1);
  }
}
