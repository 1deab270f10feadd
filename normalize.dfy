/**
 * Place-name normalisation used for matching and de-duplication:
 * trim, lower-case, drop one trailing branch suffix (본점, 지점, 점, 역점, 직영점)
 * together with the white space before it, then collapse white-space runs.
 */
module Normalize {
  import opened Wrappers
  import opened Text

  /** The alternative occurs at j and only white space follows it up to the end. */
  predicate AltAt(s: string, j: nat, alt: string) {
    j + |alt| <= |s| && s[j..j + |alt|] == alt && SkipSpace(s, j + |alt|) == |s|
  }

  /** `(본점|지점|점|역점|직영점)\s*$` matches at position j. */
  predicate SuffixFrom(s: string, j: nat) {
    AltAt(s, j, "본점") || AltAt(s, j, "지점") || AltAt(s, j, "점")
    || AltAt(s, j, "역점") || AltAt(s, j, "직영점")
  }

  /**
   * The whole pattern `\s*(…)\s*$` matches when tried at position i: the
   * greedy `\s*` must take the whole white-space run, because every
   * alternative starts with a non-space character.
   */
  predicate MatchAt(s: string, i: nat)
    requires i <= |s|
  {
    SuffixFrom(s, SkipSpace(s, i))
  }

  /** The regular-expression engine's scan: the leftmost position from i on where the pattern matches. */
  function FirstMatch(s: string, i: nat): (r: Option<nat>)
    requires i <= |s|
    ensures r.Some? ==> i <= r.value <= |s| && MatchAt(s, r.value)
    ensures r.Some? ==> forall k | i <= k < r.value :: !MatchAt(s, k)
    ensures r.None? ==> forall k | i <= k <= |s| :: !MatchAt(s, k)
    decreases |s| - i
  {
    if MatchAt(s, i) then Some(i)
    else if i == |s| then None
    else FirstMatch(s, i + 1)
  }

  /**
   * `s.replace(/\s*(본점|지점|점|역점|직영점)\s*$/g, "")`: a match always runs to
   * the end of s, so the replacement keeps exactly the text before the
   * leftmost match, and the global flag finds no second match.
   */
  function StripBranchSuffix(s: string): (r: string)
    ensures |r| <= |s| && r == s[..|r|]
  {
    match FirstMatch(s, 0)
    case None => s
    case Some(i) => s[..i]
  }

  /**
   * Length of the longest branch suffix s ends with (0 when none); every
   * alternative ends in 점, and 본점, 지점, 역점 and 직영점 differ before it.
   */
  function LongestSuffix(s: string): (n: nat)
    ensures n <= |s|
  {
    if |s| == 0 || s[|s| - 1] != '점' then 0
    else if |s| >= 3 && s[|s| - 3] == '직' && s[|s| - 2] == '영' then 3
    else if |s| >= 2 && (s[|s| - 2] == '본' || s[|s| - 2] == '지' || s[|s| - 2] == '역') then 2
    else 1
  }

  /** Where the removed part starts: the white-space run before the longest suffix. */
  function CutPoint(s: string): (i: nat)
    requires LongestSuffix(s) > 0
    ensures i <= |s| - LongestSuffix(s)
  {
    SpaceRunStart(s, |s| - LongestSuffix(s))
  }

  /**
   * Reference definition of the suffix removal for a trimmed name: the
   * LONGEST branch suffix and the white space before it are removed, once.
   */
  function StripLongestSuffix(s: string): (r: string)
  {
    if LongestSuffix(s) == 0 then s else s[..CutPoint(s)]
  }

  /**
   * The full normalisation (normalize.ts, dedup.ts and dedup.py define it
   * identically), with the suffix removal in its longest-suffix form;
   * NormalizeIsRegexForm shows it equal to the regular-expression scan.
   */
  function NormalizeName(name: string): (r: string)
    ensures Trimmed(r)
    ensures NoDoubleSpace(r)
    ensures PlainSpaces(r)
    ensures NoUpper(r)
    ensures |r| <= |name|
  {
    NormalizeShape(name);
    Collapse(StripLongestSuffix(Lower(Trim(name))))
  }

  // ---------------------------------------------------------------- lemmas

  /** NormalizeName is trim, lower-case, the regular-expression replacement, then white-space collapsing. */
  lemma NormalizeIsRegexForm(name: string)
    ensures NormalizeName(name) == Collapse(StripBranchSuffix(Lower(Trim(name))))
  {
    var t := Lower(Trim(name));
    assert Trimmed(t);
    StripIsLongestSuffix(t);
  }

  lemma NormalizeShape(name: string)
    ensures var r := Collapse(StripLongestSuffix(Lower(Trim(name))));
      Trimmed(r) && |r| <= |name| && NoUpper(r) && NoDoubleSpace(r) && PlainSpaces(r)
  {
    var t := Lower(Trim(name));
    assert Trimmed(t);
    var u := StripLongestSuffix(t);
    assert Trimmed(u) by {
      StripKeepsTrimmed(t);
      StripIsLongestSuffix(t);
    }
    assert NoUpper(u) by {
      assert forall i | 0 <= i < |u| :: u[i] == t[i];
    }
    CollapseFromNoUpper(u, 0);
    CollapseShape(u);
  }

  /** In a name whose last character is not white space, a match reaches the end exactly. */
  lemma AltAtEnd(s: string, j: nat, alt: string)
    requires s == [] || !IsSpace(s[|s| - 1])
    requires AltAt(s, j, alt)
    ensures j + |alt| == |s|
  {
  }

  /** The alternative's characters occur at j. */
  lemma AltChars(s: string, j: nat, alt: string, k: nat)
    requires AltAt(s, j, alt)
    requires k < |alt|
    ensures s[j + k] == alt[k]
  {
    assert s[j..j + |alt|][k] == s[j + k];
  }

  lemma MatchedAltBound(s: string, j: nat, alt: string)
    requires s == [] || !IsSpace(s[|s| - 1])
    requires alt == "직영점" || alt == "본점" || alt == "지점" || alt == "역점" || alt == "점"
    requires AltAt(s, j, alt)
    ensures 0 < |s| - j <= LongestSuffix(s)
  {
    AltAtEnd(s, j, alt);
    AltChars(s, j, alt, |alt| - 1);
    if |alt| == 3 {
      AltChars(s, j, alt, 0);
      AltChars(s, j, alt, 1);
    } else if |alt| == 2 {
      AltChars(s, j, alt, 0);
    }
  }

  /** A match in a name without trailing white space is one of its suffixes, at most the longest. */
  lemma MatchIsSuffix(s: string, i: nat)
    requires i <= |s|
    requires s == [] || !IsSpace(s[|s| - 1])
    requires MatchAt(s, i)
    ensures 0 < |s| - SkipSpace(s, i) <= LongestSuffix(s)
  {
    var j := SkipSpace(s, i);
    if AltAt(s, j, "직영점") {
      MatchedAltBound(s, j, "직영점");
    } else if AltAt(s, j, "본점") {
      MatchedAltBound(s, j, "본점");
    } else if AltAt(s, j, "지점") {
      MatchedAltBound(s, j, "지점");
    } else if AltAt(s, j, "역점") {
      MatchedAltBound(s, j, "역점");
    } else {
      MatchedAltBound(s, j, "점");
    }
  }

  /** The longest suffix itself is a match of the alternation. */
  lemma LongestSuffixMatches(s: string)
    requires LongestSuffix(s) > 0
    ensures SuffixFrom(s, |s| - LongestSuffix(s))
    ensures !IsSpace(s[|s| - LongestSuffix(s)])
  {
    var n := LongestSuffix(s);
    var p := |s| - n;
    assert SkipSpace(s, |s|) == |s|;
    if n == 3 {
      assert s[p..|s|] == "직영점";
    } else if n == 2 && s[p] == '본' {
      assert s[p..|s|] == "본점";
    } else if n == 2 && s[p] == '지' {
      assert s[p..|s|] == "지점";
    } else if n == 2 {
      assert s[p..|s|] == "역점";
    } else {
      assert s[p..|s|] == "점";
    }
  }

  /** The longest suffix, preceded by its white-space run, is a match. */
  lemma MatchAtCutPoint(s: string)
    requires LongestSuffix(s) > 0
    ensures MatchAt(s, CutPoint(s))
  {
    var p := |s| - LongestSuffix(s);
    LongestSuffixMatches(s);
    SkipSpaceOverRun(s, CutPoint(s), p);
  }

  lemma {:induction false} SkipSpaceOverRun(s: string, i: nat, p: nat)
    requires i <= p < |s|
    requires forall k | i <= k < p :: IsSpace(s[k])
    requires !IsSpace(s[p])
    ensures SkipSpace(s, i) == p
    decreases p - i
  {
    if i < p {
      SkipSpaceOverRun(s, i + 1, p);
    }
  }

  /** No position before the cut point matches. */
  lemma NoMatchBeforeCutPoint(s: string, k: nat)
    requires s == [] || !IsSpace(s[|s| - 1])
    requires LongestSuffix(s) > 0
    requires k < CutPoint(s)
    ensures !MatchAt(s, k)
  {
    var i0 := CutPoint(s);
    if MatchAt(s, k) {
      MatchIsSuffix(s, k);
    }
  }

  /**
   * The regular-expression scan removes exactly the longest suffix and the
   * white space before it, for every name without trailing white space (as
   * after `trim`).
   */
  lemma StripIsLongestSuffix(s: string)
    requires s == [] || !IsSpace(s[|s| - 1])
    ensures StripBranchSuffix(s) == StripLongestSuffix(s)
  {
    if LongestSuffix(s) == 0 {
      NoMatchWithoutSuffix(s);
    } else {
      var i0 := CutPoint(s);
      MatchAtCutPoint(s);
      forall k | 0 <= k < i0
        ensures !MatchAt(s, k)
      {
        NoMatchBeforeCutPoint(s, k);
      }
      LeftmostMatch(s, i0);
    }
  }

  lemma NoMatchWithoutSuffix(s: string)
    requires s == [] || !IsSpace(s[|s| - 1])
    requires LongestSuffix(s) == 0
    ensures FirstMatch(s, 0).None?
  {
    var fm := FirstMatch(s, 0);
    if fm.Some? {
      MatchIsSuffix(s, fm.value);
    }
  }

  /** The scan finds the position that matches with no match before it. */
  lemma LeftmostMatch(s: string, i0: nat)
    requires i0 <= |s| && MatchAt(s, i0)
    requires forall k | 0 <= k < i0 :: !MatchAt(s, k)
    ensures FirstMatch(s, 0) == Some(i0)
  {
  }

  /** The suffix removal keeps a trimmed name trimmed. */
  lemma StripKeepsTrimmed(s: string)
    requires Trimmed(s)
    ensures Trimmed(StripBranchSuffix(s))
  {
    StripIsLongestSuffix(s);
  }

  /** Already trimmed, lower-case and singly spaced with plain spaces. */
  predicate Clean(s: string) {
    Trimmed(s) && NoUpper(s) && NoDoubleSpace(s) && PlainSpaces(s)
  }

  /** A clean name only loses its suffix. */
  lemma NormalizeClean(s: string)
    requires Clean(s)
    ensures NormalizeName(s) == StripLongestSuffix(s)
  {
    TrimmedTrim(s);
    LowerNoUpper(s);
    StripIsLongestSuffix(s);
    var u := StripLongestSuffix(s);
    assert forall i | 0 <= i < |u| :: u[i] == s[i];
    CollapseFromIdentity(u, 0);
  }

  lemma SuffixedExample()
    ensures NormalizeName("강남 파스타 본점") == "강남 파스타"
  {
    var s := "강남 파스타 본점";
    assert StripLongestSuffix(s) == "강남 파스타" by {
      assert LongestSuffix(s) == 2;
      assert SpaceRunStart(s, 6) == 6 by {
        assert !IsSpace(s[5]);
      }
    }
    assert Clean(s) by {
      assert forall i | 0 <= i < |s| :: IsSpace(s[i]) <==> i == 2 || i == 6;
    }
    NormalizeClean(s);
  }

  lemma PlainExample()
    ensures NormalizeName("강남 파스타") == "강남 파스타"
  {
    var t := "강남 파스타";
    assert StripLongestSuffix(t) == t by {
      assert LongestSuffix(t) == 0;
    }
    assert Clean(t) by {
      assert forall i | 0 <= i < |t| :: IsSpace(t[i]) <==> i == 2;
    }
    NormalizeClean(t);
  }

  /** A branch suffix is ignored when names are compared. */
  lemma BranchSuffixIgnored()
    ensures NormalizeName("강남 파스타 본점") == NormalizeName("강남 파스타") == "강남 파스타"
  {
    SuffixedExample();
    PlainExample();
  }

  /** Names that differ only in ASCII letter case normalise to the same name. */
  lemma CaseIgnored(name: string)
    ensures NormalizeName(Lower(name)) == NormalizeName(name)
  {
    TrimLower(name);
    LowerIdempotent(Trim(name));
  }

  lemma LowerIdempotent(s: string)
    ensures Lower(Lower(s)) == Lower(s)
  {
  }

  /** Trimming commutes with lower-casing. */
  lemma TrimLower(name: string)
    ensures Trim(Lower(name)) == Lower(Trim(name))
  {
    LowerKeepsSpaceRuns(name);
    var i := SkipSpace(name, 0);
    var j := SpaceRunStart(name, |name|);
    if i < j {
      LowerSlice(name, i, j);
    }
  }

  lemma LowerSlice(s: string, i: nat, j: nat)
    requires i <= j <= |s|
    ensures Lower(s)[i..j] == Lower(s[i..j])
  {
  }

  /** Lower-casing changes no white space, so the trimmed range is the same. */
  lemma LowerKeepsSpaceRuns(s: string)
    ensures SkipSpace(Lower(s), 0) == SkipSpace(s, 0)
    ensures SpaceRunStart(Lower(s), |s|) == SpaceRunStart(s, |s|)
  {
    SkipSpaceSame(Lower(s), s, 0);
    SpaceRunStartSame(Lower(s), s, |s|);
  }

  lemma {:induction false} SkipSpaceSame(a: string, b: string, i: nat)
    requires |a| == |b| && i <= |a|
    requires forall k | 0 <= k < |a| :: IsSpace(a[k]) <==> IsSpace(b[k])
    ensures SkipSpace(a, i) == SkipSpace(b, i)
    decreases |a| - i
  {
    if i < |a| && IsSpace(a[i]) {
      SkipSpaceSame(a, b, i + 1);
    }
  }

  lemma {:induction false} SpaceRunStartSame(a: string, b: string, p: nat)
    requires |a| == |b| && p <= |a|
    requires forall k | 0 <= k < |a| :: IsSpace(a[k]) <==> IsSpace(b[k])
    ensures SpaceRunStart(a, p) == SpaceRunStart(b, p)
  {
    if p > 0 && IsSpace(a[p - 1]) {
      SpaceRunStartSame(a, b, p - 1);
    }
  }

  /** The empty name normalises to the empty name. */
  lemma EmptyName()
    ensures NormalizeName("") == ""
  {
  }

  /**
   * Only one suffix is removed per call, so normalising is not idempotent:
   * "본점점" becomes "본점", which itself becomes "".
   */
  lemma NotIdempotent()
    ensures NormalizeName("본점점") == "본점"
    ensures NormalizeName("본점") == ""
  {
    assert NormalizeName("본점점") == "본점" by {
      assert StripLongestSuffix("본점점") == "본점" by {
        assert LongestSuffix("본점점") == 1;
        assert CutPoint("본점점") == 2;
      }
      assert Clean("본점점");
      NormalizeClean("본점점");
    }
    assert NormalizeName("본점") == "" by {
      assert StripLongestSuffix("본점") == "" by {
        assert LongestSuffix("본점") == 2;
      }
      assert Clean("본점");
      NormalizeClean("본점");
    }
  }
}
