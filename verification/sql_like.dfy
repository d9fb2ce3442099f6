/** PostgreSQL's `LIKE` operator with the default escape character, used by
    the log reader's domain search. Matching is case-sensitive. */
module SqlLike {
  import opened Strings

  /** A pattern character with a special meaning. */
  predicate IsLikeSpecial(c: char) { c == '%' || c == '_' || c == '\\' }

  predicate NoWildcards(s: string) { forall i :: 0 <= i < |s| ==> !IsLikeSpecial(s[i]) }

  /** `t LIKE p`: `%` matches any run of characters, `_` any one character,
      and `\` makes the character after it literal. A lone trailing `\` (an
      error in PostgreSQL) is read here as a literal backslash. */
  predicate Like(t: string, p: string)
    decreases |p|, |t|
  {
    if |p| == 0 then |t| == 0
    else if p[0] == '%' then Like(t, p[1..]) || (|t| > 0 && Like(t[1..], p))
    else if p[0] == '_' then |t| > 0 && Like(t[1..], p[1..])
    else if p[0] == '\\' && |p| > 1 then |t| > 0 && t[0] == p[1] && Like(t[1..], p[2..])
    else |t| > 0 && t[0] == p[0] && Like(t[1..], p[1..])
  }

  /** The pattern the log reader builds from a domain fragment. */
  function SubstringPattern(f: string): string { "%" + f + "%" }

  lemma {:induction false} LikeAnything(t: string)
    ensures Like(t, "%")
    decreases |t|
  {
    if |t| > 0 {
      LikeAnything(t[1..]);
    }
  }

  /** For a fragment without wildcards, `t LIKE 'f%'` is "f is a prefix of t". */
  lemma {:induction false} LikePrefix(t: string, f: string)
    requires NoWildcards(f)
    ensures Like(t, f + "%") <==> IsPrefix(f, t)
    decreases |f|
  {
    if |f| == 0 {
      assert f + "%" == "%";
      LikeAnything(t);
    } else {
      var p := f + "%";
      assert p[0] == f[0] && !IsLikeSpecial(f[0]);
      assert p[1..] == f[1..] + "%";
      assert NoWildcards(f[1..]);
      if |t| > 0 {
        LikePrefix(t[1..], f[1..]);
        if t[0] == f[0] && IsPrefix(f[1..], t[1..]) {
          assert t[..|f|] == [t[0]] + t[1..][..|f| - 1];
          assert f == [f[0]] + f[1..];
        }
        if IsPrefix(f, t) {
          assert t[1..][..|f| - 1] == t[..|f|][1..];
        }
      }
    }
  }

  /** For a fragment without wildcards, `t LIKE '%f%'` holds exactly when `f`
      occurs in `t`. */
  lemma {:induction false} LikeSubstring(t: string, f: string)
    requires NoWildcards(f)
    ensures Like(t, SubstringPattern(f)) <==> Contains(t, f)
    decreases |t|
  {
    var q := f + "%";
    assert SubstringPattern(f) == "%" + q;
    assert ("%" + q)[1..] == q;
    LikePrefix(t, f);
    if |t| > 0 {
      LikeSubstring(t[1..], f);
    }
  }
}
