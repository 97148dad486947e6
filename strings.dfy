/** The two string tests the gate relies on, `String.prototype.startsWith`
    and `String.prototype.includes`, over `seq<char>`. */
module Strings {

  /** `s.startsWith(p)`: the first `|p|` characters of `s` are `p`. */
  predicate StartsWith(s: string, p: string) {
    |p| <= |s| && s[..|p|] == p
  }

  /** `t` occurs in `s` as a contiguous block beginning at index `i`. */
  predicate OccursAt(s: string, t: string, i: int) {
    0 <= i <= |s| && StartsWith(s[i..], t)
  }

  /** `s.includes(t)`, computed the way a left-to-right scan does it: try a
      match at the front, otherwise drop one character and try again. */
  predicate Includes(s: string, t: string)
    decreases |s|
  {
    StartsWith(s, t) || (|s| > 0 && Includes(s[1..], t))
  }

  /** The scan agrees with the definition of `includes`: it succeeds exactly
      when `t` occurs somewhere in `s`. */
  lemma {:induction false} IncludesIff(s: string, t: string)
    ensures Includes(s, t) <==> exists i :: OccursAt(s, t, i)
    decreases |s|
  {
    assert s[0..] == s;
    if |s| == 0 {
      if Includes(s, t) {
        assert OccursAt(s, t, 0);
      }
    } else {
      IncludesIff(s[1..], t);
      if StartsWith(s, t) {
        assert OccursAt(s, t, 0);
      } else if Includes(s, t) {
        var j :| OccursAt(s[1..], t, j);
        assert s[1..][j..] == s[j + 1..];
        assert OccursAt(s, t, j + 1);
      }
      if exists i :: OccursAt(s, t, i) {
        var i :| OccursAt(s, t, i);
        if i == 0 {
          assert StartsWith(s, t);
        } else {
          assert s[1..][i - 1..] == s[i..];
          assert OccursAt(s[1..], t, i - 1);
          assert Includes(s[1..], t);
        }
      }
    }
  }

  /** An occurrence of `t` anywhere, whatever surrounds it, is found. */
  lemma IncludesInside(before: string, t: string, after: string)
    ensures Includes(before + t + after, t)
  {
    var s := before + t + after;
    assert s[|before|..][..|t|] == t;
    assert OccursAt(s, t, |before|);
    IncludesIff(s, t);
  }

  /** A string shorter than `t` cannot contain it. */
  lemma {:induction false} ShortNeverIncludes(s: string, t: string)
    requires |s| < |t|
    ensures !Includes(s, t)
    decreases |s|
  {
    if |s| > 0 {
      ShortNeverIncludes(s[1..], t);
    }
  }
}
