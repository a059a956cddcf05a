/** SQL `LIKE` pattern matching: `%` matches any run of characters, `_` any
    single character, everything else itself (exact, case-sensitive). MySQL
    also reads `\` as an escape character; the matcher does not, so `\` is
    counted among the special characters and the results about plain text
    exclude it. */
module Patterns {
  import opened Common

  /** A character `LIKE` does not match as itself: the two wildcards and the
      escape character. */
  predicate IsWildcard(c: char) {
    c == '%' || c == '_' || c == '\\'
  }

  /** `s LIKE p`. */
  predicate Like(s: string, p: string)
    decreases |p|
  {
    if |p| == 0 then |s| == 0
    else if p[0] == '%' then exists k :: 0 <= k <= |s| && Like(s[k..], p[1..])
    else if p[0] == '_' then |s| > 0 && Like(s[1..], p[1..])
    else |s| > 0 && s[0] == p[0] && Like(s[1..], p[1..])
  }

  /** The pattern `'%' + x + '%'` bound for a text search on `x`. */
  function Wrap(x: string): (p: string)
    ensures |p| == |x| + 2 && p[0] == '%' && p[|p| - 1] == '%'
    ensures p[1..] == x + "%"
  {
    "%" + x + "%"
  }

  lemma LikePercent(s: string)
    ensures Like(s, "%")
  {
    assert s[|s|..] == [];
    assert Like(s[|s|..], "%"[1..]);
  }

  /** Without wildcards in `x`, `s LIKE x + '%'` holds exactly when `x` is a prefix of `s`. */
  lemma {:induction false} LikePrefix(s: string, x: string)
    requires forall i :: 0 <= i < |x| ==> !IsWildcard(x[i])
    ensures Like(s, x + "%") <==> (|x| <= |s| && s[..|x|] == x)
  {
    if |x| == 0 {
      assert x + "%" == "%";
      LikePercent(s);
    } else {
      var p := x + "%";
      assert p[0] == x[0] && p[1..] == x[1..] + "%";
      if |s| > 0 {
        LikePrefix(s[1..], x[1..]);
        if |x| <= |s| && s[..|x|] == x {
          assert s[1..][..|x| - 1] == x[1..];
        }
        if s[0] == x[0] && |x[1..]| <= |s[1..]| && s[1..][..|x[1..]|] == x[1..] {
          assert s[..|x|] == [s[0]] + s[1..][..|x[1..]|];
          assert x == [x[0]] + x[1..];
        }
      }
    }
  }

  /** Without wildcards in `x`, `s LIKE '%x%'` is substring containment. */
  lemma LikeWrapContains(s: string, x: string)
    requires forall i :: 0 <= i < |x| ==> !IsWildcard(x[i])
    ensures Like(s, Wrap(x)) <==> Contains(s, x)
  {
    var p := Wrap(x);
    if Like(s, p) {
      var k :| 0 <= k <= |s| && Like(s[k..], p[1..]);
      LikePrefix(s[k..], x);
      assert s[k..][..|x|] == s[k..k + |x|];
      assert OccursAt(s, x, k);
    }
    if Contains(s, x) {
      var k :| 0 <= k <= |s| && OccursAt(s, x, k);
      LikePrefix(s[k..], x);
      assert s[k..][..|x|] == s[k..k + |x|];
      assert Like(s[k..], p[1..]);
    }
  }
}
