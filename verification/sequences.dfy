/**
 * Literal search-and-replace over sequences, as Ruby's `String#[]=` does it when
 * the index is itself a string: the FIRST occurrence of the pattern is replaced
 * by the value, and the assignment raises when the pattern does not occur.
 * The module is generic so that it serves both byte buffers (the agent template)
 * and character strings (builder class names).
 */
module Sequences {
  import opened Wrappers

  /** `pat` occurs in `s` starting at offset `i`. */
  predicate OccursAt<T(==)>(s: seq<T>, pat: seq<T>, i: int)
  {
    0 <= i && i + |pat| <= |s| && s[i..i + |pat|] == pat
  }

  /** `pat` occurs somewhere in `s`. */
  predicate Contains<T(==)>(s: seq<T>, pat: seq<T>)
  {
    exists i :: 0 <= i <= |s| && OccursAt(s, pat, i)
  }

  /** The first offset at or after `from` where `pat` occurs in `s`, if any. */
  function FindFrom<T(==)>(s: seq<T>, pat: seq<T>, from: nat): (r: Option<nat>)
    ensures r.Some? ==> from <= r.value && OccursAt(s, pat, r.value)
    ensures r.Some? ==> forall j :: from <= j < r.value ==> !OccursAt(s, pat, j)
    ensures r.None? ==> forall j :: from <= j ==> !OccursAt(s, pat, j)
    decreases |s| - from
  {
    if from + |pat| > |s| then None
    else if s[from..from + |pat|] == pat then Some(from)
    else FindFrom(s, pat, from + 1)
  }

  /** The offset of the first occurrence of `pat` in `s`; None exactly when there is none. */
  function FindFirst<T(==)>(s: seq<T>, pat: seq<T>): (r: Option<nat>)
    ensures r.Some? ==> OccursAt(s, pat, r.value)
    ensures r.Some? ==> forall j :: 0 <= j < r.value ==> !OccursAt(s, pat, j)
    ensures r.None? <==> !Contains(s, pat)
  {
    FindFrom(s, pat, 0)
  }

  /**
   * `s[pat] = rep` in Ruby: None when `pat` does not occur (Ruby raises
   * IndexError), otherwise `s` with its first occurrence of `pat` replaced.
   */
  function ReplaceFirst<T(==)>(s: seq<T>, pat: seq<T>, rep: seq<T>): (r: Option<seq<T>>)
    ensures r.None? <==> !Contains(s, pat)
    ensures r.Some? ==>
              var i := FindFirst(s, pat).value;
              && |r.value| == |s| - |pat| + |rep|
              && r.value[..i] == s[..i]
              && r.value[i..i + |rep|] == rep
              && r.value[i + |rep|..] == s[i + |pat|..]
  {
    match FindFirst(s, pat)
    case None => None
    case Some(i) => Some(s[..i] + rep + s[i + |pat|..])
  }

  /**
   * A same-length replacement keeps the layout: the length is unchanged, the
   * first occurrence's bytes now hold `rep`, and every other position keeps its value.
   */
  lemma ReplaceSameLength<T>(s: seq<T>, pat: seq<T>, rep: seq<T>)
    requires |rep| == |pat|
    requires Contains(s, pat)
    ensures ReplaceFirst(s, pat, rep).Some?
    ensures var r := ReplaceFirst(s, pat, rep).value;
            var i := FindFirst(s, pat).value;
            && |r| == |s|
            && r[i..i + |pat|] == rep
            && forall k :: 0 <= k < |s| && !(i <= k < i + |pat|) ==> r[k] == s[k]
  {
    var r := ReplaceFirst(s, pat, rep).value;
    var i := FindFirst(s, pat).value;
    forall k | 0 <= k < |s| && !(i <= k < i + |pat|)
      ensures r[k] == s[k]
    {
      if k < i {
        assert r[k] == r[..i][k];
      } else {
        assert r[k] == r[i + |rep|..][k - i - |rep|];
      }
    }
  }

  /** A pattern found at offset 0 is the first occurrence, so the replacement rewrites the prefix. */
  lemma ReplacePrefix<T>(s: seq<T>, pat: seq<T>, rep: seq<T>)
    requires |pat| <= |s| && s[..|pat|] == pat
    ensures ReplaceFirst(s, pat, rep) == Some(rep + s[|pat|..])
  {
    assert OccursAt(s, pat, 0);
    var i := FindFirst(s, pat).value;
    assert i == 0;
    var r := ReplaceFirst(s, pat, rep).value;
    assert r == r[..i] + r[i..i + |rep|] + r[i + |rep|..];
  }
}
