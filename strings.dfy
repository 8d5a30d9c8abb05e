/** The `str` methods the routers rely on (`starts_with`, `ends_with`,
    `contains`, `strip_prefix`), on strings as sequences of characters. */
module Strings {

  /** `s.starts_with(p)`: `p` is no longer than `s` and each character of `p`
      is the character of `s` at the same index. */
  predicate StartsWith(s: string, p: string): (r: bool)
    ensures r <==> |p| <= |s| && forall i | 0 <= i < |p| :: s[i] == p[i]
  {
    |p| <= |s| && s[..|p|] == p
  }

  /** `s.ends_with(p)`: `p` is no longer than `s` and each character of `p`
      is the character of `s` the same distance from the end. */
  predicate EndsWith(s: string, p: string): (r: bool)
    ensures r <==> |p| <= |s| && forall i | 0 <= i < |p| :: s[|s| - |p| + i] == p[i]
  {
    |p| <= |s| && s[|s| - |p|..] == p
  }

  /** `p` occurs in `s` at offset `i`. */
  predicate OccursAt(s: string, p: string, i: int)
  {
    0 <= i && i + |p| <= |s| && s[i..i + |p|] == p
  }

  /** `s.contains(p)`: a left-to-right search, true exactly when `p` occurs
      somewhere in `s`. */
  function Contains(s: string, p: string): (r: bool)
    ensures r <==> exists i :: OccursAt(s, p, i)
    decreases |s|
  {
    if StartsWith(s, p) then
      assert OccursAt(s, p, 0);
      true
    else if s == [] then
      false
    else
      OccursInTail(s, p);
      Contains(s[1..], p)
  }

  /** When `p` is not at the front of `s`, it occurs in `s` exactly when it
      occurs in the tail of `s`. */
  lemma OccursInTail(s: string, p: string)
    requires s != [] && !StartsWith(s, p)
    ensures (exists i :: OccursAt(s, p, i)) <==> (exists j :: OccursAt(s[1..], p, j))
  {
    if i :| OccursAt(s, p, i) {
      assert i != 0;
      assert OccursAt(s[1..], p, i - 1);
    }
    if j :| OccursAt(s[1..], p, j) {
      assert OccursAt(s, p, j + 1);
    }
  }

  /** A prefix occurs in the string, so `starts_with` implies `contains`. */
  lemma StartsWithContains(s: string, p: string)
    requires StartsWith(s, p)
    ensures Contains(s, p)
  {
    assert OccursAt(s, p, 0);
  }

  /** A suffix occurs in the string, so `ends_with` implies `contains`. */
  lemma EndsWithContains(s: string, p: string)
    requires EndsWith(s, p)
    ensures Contains(s, p)
  {
    assert OccursAt(s, p, |s| - |p|);
  }

  /** The empty pattern starts, ends and occurs in every string. */
  lemma EmptyPatternEverywhere(s: string)
    ensures StartsWith(s, "") && EndsWith(s, "") && Contains(s, "")
  {
    assert OccursAt(s, "", 0);
  }

  /** Stripping the prefix `p` and then finding `c` at the front is finding
      `p + c` at the front: the step `CommandRouter` takes. */
  lemma StartsWithConcat(s: string, p: string, c: string)
    ensures (StartsWith(s, p) && StartsWith(s[|p|..], c)) <==> StartsWith(s, p + c)
  {
    if StartsWith(s, p) && StartsWith(s[|p|..], c) {
      assert s[..|p + c|] == s[..|p|] + s[|p|..][..|c|];
    }
    if StartsWith(s, p + c) {
      assert s[..|p|] == (p + c)[..|p|];
      assert s[|p|..][..|c|] == s[..|p + c|][|p|..];
    }
  }
}
