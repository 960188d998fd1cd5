/**
 * SQLite's LIKE operator as the catalogue's search query uses it: default
 * settings, no ESCAPE clause. In a pattern `%` matches any run of
 * characters, `_` matches exactly one character, and every other pattern
 * character matches one character that is equal to it up to ASCII case.
 */
module SqlLike {
  import opened Text

  /** `s LIKE p`. */
  predicate Like(s: string, p: string)
    decreases |s| + |p|
  {
    if p == [] then s == []
    else if p[0] == '%' then Like(s, p[1..]) || (s != [] && Like(s[1..], p))
    else s != [] && (p[0] == '_' || EqualFold(p[0], s[0])) && Like(s[1..], p[1..])
  }

  /** The keyword holds one of LIKE's two wildcard characters. */
  predicate HasWildcard(k: string) {
    '%' in k || '_' in k
  }

  /** A lone `%` matches every string. */
  lemma {:induction false} LikePercentAll(s: string)
    ensures Like(s, "%")
  {
    if s != [] {
      LikePercentAll(s[1..]);
    }
  }

  /** `s LIKE q||'%'`, for a wildcard-free `q`, holds exactly when `q` starts `s` up to case. */
  lemma {:induction false} LikePrefix(s: string, q: string)
    requires !HasWildcard(q)
    ensures Like(s, q + "%") <==> PrefixFold(q, s)
  {
    if q == [] {
      assert q + "%" == "%";
      LikePercentAll(s);
    } else {
      var p := q + "%";
      assert p[0] == q[0] && p[1..] == q[1..] + "%";
      assert !HasWildcard(q[1..]) by {
        assert forall c :: c in q[1..] ==> c in q;
      }
      if s != [] {
        LikePrefix(s[1..], q[1..]);
        PrefixFoldCons(q, s);
      }
    }
  }

  /**
   * The search condition `name LIKE '%'||keyword||'%'`: for a keyword without
   * wildcards it holds exactly when the keyword occurs in the name, up to
   * ASCII case.
   */
  lemma {:induction false} LikeContains(s: string, q: string)
    requires !HasWildcard(q)
    ensures Like(s, "%" + q + "%") <==> ContainsFold(s, q)
  {
    var p := "%" + q + "%";
    assert p[0] == '%' && p[1..] == q + "%";
    LikePrefix(s, q);
    ContainsFoldStep(s, q);
    if s != [] {
      LikeContains(s[1..], q);
    }
  }
}
