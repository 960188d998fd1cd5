/**
 * String tests used by the catalogue: Go's `strings.HasSuffix`, and the
 * ASCII case folding that SQLite applies when it compares characters in a
 * LIKE pattern.
 */
module Text {

  /** Go's `strings.HasSuffix(s, suffix)`. */
  predicate HasSuffix(s: string, suffix: string) {
    |suffix| <= |s| && s[|s| - |suffix|..] == suffix
  }

  /** Maps 'A'..'Z' to 'a'..'z' and leaves every other character alone. */
  function LowerAscii(c: char): (r: char)
    ensures 'A' <= c <= 'Z' ==> 'a' <= r <= 'z' && r as int - c as int == 32
    ensures !('A' <= c <= 'Z') ==> r == c
  {
    if 'A' <= c <= 'Z' then (c as int + 32) as char else c
  }

  /** Two characters are equal up to ASCII case. */
  predicate EqualFold(a: char, b: char) {
    LowerAscii(a) == LowerAscii(b)
  }

  /** `p` is a prefix of `s`, up to ASCII case. */
  predicate PrefixFold(p: string, s: string) {
    |p| <= |s| && forall i :: 0 <= i < |p| ==> EqualFold(p[i], s[i])
  }

  /** `sub` occurs in `s` at some offset, up to ASCII case. */
  predicate ContainsFold(s: string, sub: string) {
    exists i :: 0 <= i <= |s| && PrefixFold(sub, s[i..])
  }

  /** A non-empty prefix test splits into its first character and the rest. */
  lemma PrefixFoldCons(p: string, s: string)
    requires p != [] && s != []
    ensures PrefixFold(p, s) <==> EqualFold(p[0], s[0]) && PrefixFold(p[1..], s[1..])
  {
  }

  /** An occurrence is either at offset 0 or inside the tail. */
  lemma ContainsFoldStep(s: string, sub: string)
    ensures ContainsFold(s, sub) <==> PrefixFold(sub, s) || (s != [] && ContainsFold(s[1..], sub))
  {
    if ContainsFold(s, sub) && !PrefixFold(sub, s) {
      var i :| 0 <= i <= |s| && PrefixFold(sub, s[i..]);
      assert i != 0 by { assert s[0..] == s; }
      assert s[1..][i - 1..] == s[i..];
    }
    if s != [] && ContainsFold(s[1..], sub) {
      var i :| 0 <= i <= |s[1..]| && PrefixFold(sub, s[1..][i..]);
      assert s[1..][i..] == s[i + 1..];
    }
    if PrefixFold(sub, s) {
      assert s[0..] == s;
    }
  }
}
