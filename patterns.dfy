/**
 * Unanchored and anchored matches of the pattern `R+E`, where R is a
 * character class and E a class of final characters contained in R (as in
 * `[가-힣]+[구]` or `\S+[구군시]`): the greedy run takes every character of
 * R and gives back until it ends on a character of E that is not the first.
 */
module Patterns {
  import opened Wrappers

  type CharClass = char -> bool

  /** `[가-힣]`: a precomposed Hangul syllable. */
  predicate IsHangul(c: char) {
    '가' <= c <= '힣'
  }

  /** End of the run of class `run` that starts at i. */
  function RunEnd(s: string, i: nat, run: CharClass): (e: nat)
    requires i <= |s|
    ensures i <= e <= |s|
    ensures forall k | i <= k < e :: run(s[k])
    ensures e < |s| ==> !run(s[e])
    decreases |s| - i
  {
    if i < |s| && run(s[i]) then RunEnd(s, i + 1, run) else i
  }

  /** The last position k with lo <= k < hi holding a character of `end`. */
  function LastIn(s: string, lo: nat, hi: nat, end: CharClass): (k: Option<nat>)
    requires lo <= hi <= |s|
    ensures k.Some? ==> lo <= k.value < hi && end(s[k.value])
    ensures k.Some? ==> forall m | k.value < m < hi :: !end(s[m])
    ensures k.None? ==> forall m | lo <= m < hi :: !end(s[m])
    decreases hi - lo
  {
    if hi == lo then None
    else if end(s[hi - 1]) then Some(hi - 1)
    else LastIn(s, lo, hi - 1, end)
  }

  /** Where `R+E` matches when tried at i: the position of its final character. */
  function MatchEnd(s: string, i: nat, run: CharClass, end: CharClass): (k: Option<nat>)
    requires i <= |s|
    ensures k.Some? ==> i < k.value < |s| && end(s[k.value])
    ensures k.Some? ==> forall m | i <= m <= k.value :: run(s[m])
  {
    if i == |s| || !run(s[i]) then None
    else LastIn(s, i + 1, RunEnd(s, i, run), end)
  }

  /** The leftmost match at or after i, as (start, position of its final character). */
  function FirstMatch(s: string, i: nat, run: CharClass, end: CharClass): (r: Option<(nat, nat)>)
    requires i <= |s|
    ensures r.Some? ==> i <= r.value.0 < |s| && MatchEnd(s, r.value.0, run, end) == Some(r.value.1)
    ensures r.Some? ==> forall m | i <= m < r.value.0 :: MatchEnd(s, m, run, end).None?
    ensures r.None? ==> forall m | i <= m < |s| :: MatchEnd(s, m, run, end).None?
    decreases |s| - i
  {
    if i == |s| then None
    else match MatchEnd(s, i, run, end)
      case Some(k) => Some((i, k))
      case None => FirstMatch(s, i + 1, run, end)
  }

  /** The text of the leftmost match, or None. */
  function Search(s: string, run: CharClass, end: CharClass): (r: Option<string>)
  {
    match FirstMatch(s, 0, run, end)
    case Some((i, k)) => Some(s[i..k + 1])
    case None => None
  }

  /** A match is two or more characters of the run class ending in a final character, found in s at its start. */
  lemma MatchShape(s: string, i: nat, k: nat, run: CharClass, end: CharClass)
    requires i <= |s| && MatchEnd(s, i, run, end) == Some(k)
    ensures var g := s[i..k + 1];
      |g| >= 2 && end(g[|g| - 1]) && (forall m | 0 <= m < |g| :: run(g[m]))
  {
    var g := s[i..k + 1];
    forall m | 0 <= m < |g|
      ensures run(g[m])
    {
      assert g[m] == s[i + m];
    }
  }

  /** The final character of a match follows a character of the run class. */
  lemma EndFollowsRun(s: string, i: nat, k: nat, run: CharClass, end: CharClass)
    requires i <= |s| && MatchEnd(s, i, run, end) == Some(k)
    ensures 0 < k < |s| && end(s[k]) && run(s[k - 1])
  {
  }

  /** Computing a run's end from a known boundary. */
  lemma {:induction false} RunEndIs(s: string, i: nat, e: nat, run: CharClass)
    requires i <= e <= |s| && (e < |s| ==> !run(s[e]))
    requires forall k | i <= k < e :: run(s[k])
    ensures RunEnd(s, i, run) == e
    decreases e - i
  {
    if i < e {
      RunEndIs(s, i + 1, e, run);
    }
  }

  /** Positions where no match starts can be skipped. */
  lemma {:induction false} FirstMatchSkip(s: string, i: nat, j: nat, run: CharClass, end: CharClass)
    requires i <= j <= |s|
    requires forall m | i <= m < j :: MatchEnd(s, m, run, end).None?
    ensures FirstMatch(s, i, run, end) == FirstMatch(s, j, run, end)
    decreases j - i
  {
    if i < j {
      assert FirstMatch(s, i, run, end) == FirstMatch(s, i + 1, run, end) by {
        assert MatchEnd(s, i, run, end).None?;
      }
      FirstMatchSkip(s, i + 1, j, run, end);
    }
  }
}
