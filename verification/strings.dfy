/** The few string operations of Python that the tag check relies on. */
module Strings {

  /** `p` occurs in `s` starting at index `i`. */
  predicate OccursAt(s: string, p: string, i: nat) {
    i + |p| <= |s| && s[i..i + |p|] == p
  }

  /** Python's `p in s` for two strings, scanning `s` from the left. */
  function Contains(s: string, p: string): (r: bool)
    ensures r <==> exists i: nat :: OccursAt(s, p, i)
    decreases |s|
  {
    if |s| < |p| then false
    else if s[..|p|] == p then
      assert OccursAt(s, p, 0);
      true
    else
      OccursShift(s, p);
      Contains(s[1..], p)
  }

  /** Occurrences in `s[1..]` are the occurrences in `s` past index 0, shifted by one. */
  lemma OccursShift(s: string, p: string)
    requires 0 < |s|
    ensures (exists i: nat :: OccursAt(s[1..], p, i)) <==> (exists i: nat :: i > 0 && OccursAt(s, p, i))
  {
    forall i: nat | OccursAt(s[1..], p, i)
      ensures OccursAt(s, p, i + 1)
    {
      assert s[1..][i..i + |p|] == s[i + 1..i + 1 + |p|];
    }
    forall i: nat | i > 0 && OccursAt(s, p, i)
      ensures OccursAt(s[1..], p, i - 1)
    {
      assert s[1..][i - 1..i - 1 + |p|] == s[i..i + |p|];
    }
  }

  /** `s` ends with `p` (Python's `s.endswith(p)`). */
  predicate EndsWith(s: string, p: string) {
    |p| <= |s| && s[|s| - |p|..] == p
  }

  /** Python's slice `s[-n:]`: the last `n` characters, or the whole string when
      it is shorter than `n`; `s[-0:]` is `s[0:]`, the whole string too. */
  function PyTail(s: string, n: nat): (r: string)
    ensures |r| == if 0 < n <= |s| then n else |s|
    ensures EndsWith(s, r)
  {
    if 0 < n <= |s| then s[|s| - n..] else s
  }

  /** Comparing `s[-n:]` with a string of length `n > 0` is exactly a suffix test:
      a string shorter than `n` is returned whole and cannot equal it. */
  lemma PyTailIsEndsWith(s: string, p: string)
    requires 0 < |p|
    ensures PyTail(s, |p|) == p <==> EndsWith(s, p)
  {
  }

  /** A string always contains its own prefixes. */
  lemma ContainsPrefix(p: string, s: string)
    ensures Contains(p + s, p)
  {
    assert (p + s)[..|p|] == p;
  }
}
