/**
 * Literal replace-all, the behaviour of Ruby's `String#gsub` when the pattern
 * is matched literally: occurrences are found left to right, do not overlap,
 * and the replacement text is never rescanned.
 */
module Rewrite {

  /** `s.gsub(pat, rep)` for a literal `pat`. An empty pattern matches at every
      position, before each character and at the end, as Ruby's does. */
  function ReplaceAll(s: string, pat: string, rep: string): string
    decreases |s|
  {
    if pat == [] then
      if s == [] then rep else rep + [s[0]] + ReplaceAll(s[1..], pat, rep)
    else if pat <= s then
      rep + ReplaceAll(s[|pat|..], pat, rep)
    else if s == [] then
      []
    else
      [s[0]] + ReplaceAll(s[1..], pat, rep)
  }

  /** `pat` occurs in `s` at index `i`. */
  predicate OccursAt(s: string, pat: string, i: nat)
  {
    i + |pat| <= |s| && s[i..i + |pat|] == pat
  }

  /** A text in which a non-empty pattern never occurs is left as it is. */
  lemma {:induction false} ReplaceAllAbsent(s: string, pat: string, rep: string)
    requires pat != []
    requires forall i: nat :: !OccursAt(s, pat, i)
    ensures ReplaceAll(s, pat, rep) == s
    decreases |s|
  {
    if s != [] {
      assert !OccursAt(s, pat, 0);
      forall i: nat ensures !OccursAt(s[1..], pat, i) {
        assert !OccursAt(s, pat, i + 1);
        if i + |pat| <= |s[1..]| {
          assert s[1..][i..i + |pat|] == s[i + 1..i + 1 + |pat|];
        }
      }
      ReplaceAllAbsent(s[1..], pat, rep);
    }
  }

  /** With a one-character pattern, replacing in a concatenation is replacing
      in each part: no occurrence can straddle the seam. */
  lemma {:induction false} ReplaceCharConcat(a: string, b: string, c: char, rep: string)
    ensures ReplaceAll(a + b, [c], rep) == ReplaceAll(a, [c], rep) + ReplaceAll(b, [c], rep)
    decreases |a|
  {
    if a == [] {
      assert a + b == b;
    } else {
      assert (a + b)[0] == a[0];
      assert (a + b)[1..] == a[1..] + b;
      assert ([c] <= a + b) == ([c] <= a) == (a[0] == c);
      ReplaceCharConcat(a[1..], b, c, rep);
    }
  }

  /** With a one-character pattern the first character is either replaced or
      kept, and the rest is replaced on its own. */
  lemma ReplaceCharStep(s: string, c: char, rep: string)
    requires s != []
    ensures ReplaceAll(s, [c], rep) == (if s[0] == c then rep else [s[0]]) + ReplaceAll(s[1..], [c], rep)
  {
    assert ([c] <= s) == (s[0] == c);
  }

  /** Each occurrence of the character grows the text by `|rep| - 1`. */
  lemma {:induction false} ReplaceCharLength(s: string, c: char, rep: string)
    ensures |ReplaceAll(s, [c], rep)| == |s| + multiset(s)[c] * (|rep| - 1)
    decreases |s|
  {
    if s != [] {
      ReplaceCharStep(s, c, rep);
      ReplaceCharLength(s[1..], c, rep);
      var n := multiset(s[1..])[c];
      assert multiset(s) == multiset([s[0]]) + multiset(s[1..]) by {
        assert s == [s[0]] + s[1..];
      }
      assert multiset(s)[c] == if s[0] == c then n + 1 else n;
      MulSucc(n, |rep| - 1);
    }
  }

  lemma MulSucc(n: nat, d: int)
    ensures (n + 1) * d == n * d + d
  {
  }
}
