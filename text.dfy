/**
 * String helpers shared by the model: JavaScript white space (`\s`, `trim`),
 * ASCII lower-casing, substring search, splitting and joining.  Scans are
 * written over positions of one fixed string.
 */
module Text {
  /**
   * The characters matched by JavaScript's `\s` and removed by
   * `String.prototype.trim`: tab to carriage return, space, no-break space,
   * the Unicode space separators, line and paragraph separators and the
   * byte-order mark.
   */
  predicate IsSpace(c: char) {
    var n := c as int;
    if n < 0xA0 then n == 0x20 || 0x09 <= n <= 0x0D
    else if n < 0x2000 then n == 0xA0 || n == 0x1680
    else if n <= 0x3000 then n <= 0x200A || n == 0x2028 || n == 0x2029 || n == 0x202F || n == 0x205F || n == 0x3000
    else n == 0xFEFF
  }

  predicate NoSpace(s: string) {
    forall i | 0 <= i < |s| :: !IsSpace(s[i])
  }

  /** No run of two white-space characters. */
  predicate NoDoubleSpace(s: string) {
    forall i | 0 <= i < |s| - 1 :: !(IsSpace(s[i]) && IsSpace(s[i + 1]))
  }

  /** Every white-space character is a plain space. */
  predicate PlainSpaces(s: string) {
    forall i | 0 <= i < |s| :: IsSpace(s[i]) ==> s[i] == ' '
  }

  /** Neither starts nor ends with white space. */
  predicate Trimmed(s: string) {
    s == [] || (!IsSpace(s[0]) && !IsSpace(s[|s| - 1]))
  }

  /** End of the white-space run that starts at i (what a greedy `\s*` consumes). */
  function SkipSpace(s: string, i: nat): (j: nat)
    requires i <= |s|
    ensures i <= j <= |s|
    ensures forall k | i <= k < j :: IsSpace(s[k])
    ensures j < |s| ==> !IsSpace(s[j])
    decreases |s| - i
  {
    if i < |s| && IsSpace(s[i]) then SkipSpace(s, i + 1) else i
  }

  /** Start of the white-space run that ends at p. */
  function SpaceRunStart(s: string, p: nat): (i: nat)
    requires p <= |s|
    ensures i <= p
    ensures forall k | i <= k < p :: IsSpace(s[k])
    ensures i > 0 ==> !IsSpace(s[i - 1])
  {
    if p > 0 && IsSpace(s[p - 1]) then SpaceRunStart(s, p - 1) else p
  }

  /** First white-space position at or after i, or |s| (the end of a word). */
  function NextSpace(s: string, i: nat): (j: nat)
    requires i <= |s|
    ensures i <= j <= |s|
    ensures forall k | i <= k < j :: !IsSpace(s[k])
    ensures j < |s| ==> IsSpace(s[j])
    decreases |s| - i
  {
    if i < |s| && !IsSpace(s[i]) then NextSpace(s, i + 1) else i
  }

  /** `String.prototype.trim`: the text between the leading and the trailing white-space runs. */
  function Trim(s: string): (r: string)
    ensures Trimmed(r)
    ensures |r| <= |s|
  {
    var i := SkipSpace(s, 0);
    var j := SpaceRunStart(s, |s|);
    if j <= i then [] else s[i..j]
  }

  /** ASCII lower-casing of one character; every other character is kept. */
  function LowerChar(c: char): (r: char)
    ensures IsSpace(r) <==> IsSpace(c)
    ensures !('A' <= r <= 'Z')
  {
    if 'A' <= c <= 'Z' then (c as int + 32) as char else c
  }

  /** `toLowerCase()` / `lower()`, on ASCII letters. */
  function Lower(s: string): (r: string)
    ensures |r| == |s|
  {
    seq(|s|, i requires 0 <= i < |s| => LowerChar(s[i]))
  }

  predicate NoUpper(s: string) {
    forall i | 0 <= i < |s| :: !('A' <= s[i] <= 'Z')
  }

  predicate StartsWith(s: string, p: string) {
    |p| <= |s| && s[..|p|] == p
  }

  /** sub occurs in s at position i. */
  predicate OccursAt(s: string, sub: string, i: nat) {
    i + |sub| <= |s| && s[i..i + |sub|] == sub
  }

  /** `s.includes(sub)` / Python's `sub in s`. */
  predicate Contains(s: string, sub: string) {
    exists i: nat | i <= |s| :: OccursAt(s, sub, i)
  }

  /** JavaScript's `s.split(/\s+/)` from position i: pieces between white-space runs. */
  function SplitWsFrom(s: string, i: nat): (r: seq<string>)
    requires i <= |s|
    ensures |r| >= 1
    ensures forall k | 0 <= k < |r| :: NoSpace(r[k])
    decreases |s| - i
  {
    var e := NextSpace(s, i);
    if e == |s| then [s[i..]] else [s[i..e]] + SplitWsFrom(s, SkipSpace(s, e))
  }

  /** `s.split(/\s+/)`; "" gives [""], and leading or trailing white space gives an empty piece. */
  function SplitWs(s: string): (r: seq<string>)
    ensures |r| >= 1
    ensures forall k | 0 <= k < |r| :: NoSpace(r[k])
  {
    SplitWsFrom(s, 0)
  }

  /** Python's `s.split()` from position i. */
  function SplitPyFrom(s: string, i: nat): (r: seq<string>)
    requires i <= |s|
    ensures forall k | 0 <= k < |r| :: r[k] != [] && NoSpace(r[k])
    decreases |s| - i
  {
    var b := SkipSpace(s, i);
    if b == |s| then [] else
      var e := NextSpace(s, b);
      [s[b..e]] + SplitPyFrom(s, e)
  }

  /** Python's `s.split()`: the non-empty white-space-free words. */
  function SplitPy(s: string): (r: seq<string>)
    ensures forall k | 0 <= k < |r| :: r[k] != [] && NoSpace(r[k])
  {
    SplitPyFrom(s, 0)
  }

  /** `parts.join(sep)`. */
  function Join(parts: seq<string>, sep: string): string {
    if |parts| == 0 then ""
    else if |parts| == 1 then parts[0]
    else parts[0] + sep + Join(parts[1..], sep)
  }

  /** `s.replace(/\s+/g, "")`: every white-space character removed. */
  function RemoveSpace(s: string): (r: string)
    ensures NoSpace(r)
    ensures |r| <= |s|
  {
    if s == [] then []
    else if IsSpace(s[0]) then RemoveSpace(s[1..])
    else [s[0]] + RemoveSpace(s[1..])
  }

  /** `s.replace(/\s+/g, " ")` on s[i..]: every maximal white-space run becomes one space. */
  function CollapseFrom(s: string, i: nat): (r: string)
    requires i <= |s|
    ensures |r| <= |s| - i
    ensures r == [] <==> i == |s|
    ensures r != [] ==> (IsSpace(r[0]) <==> IsSpace(s[i]))
    decreases |s| - i
  {
    if i == |s| then []
    else if IsSpace(s[i]) then [' '] + CollapseFrom(s, SkipSpace(s, i))
    else [s[i]] + CollapseFrom(s, i + 1)
  }

  function Collapse(s: string): (r: string)
    ensures |r| <= |s|
  {
    CollapseFrom(s, 0)
  }

  // ---------------------------------------------------------------- lemmas

  /** Every white-space run left by Collapse is a single space character. */
  lemma {:induction false} CollapseFromSingle(s: string, i: nat)
    requires i <= |s|
    ensures NoDoubleSpace(CollapseFrom(s, i))
    ensures PlainSpaces(CollapseFrom(s, i))
    decreases |s| - i
  {
    if i < |s| {
      var j := if IsSpace(s[i]) then SkipSpace(s, i) else i + 1;
      CollapseFromSingle(s, j);
      var t := CollapseFrom(s, j);
      var r := CollapseFrom(s, i);
      assert forall k | 1 <= k < |r| :: r[k] == t[k - 1];
    }
  }

  /** Collapse keeps a trailing non-space character at the end. */
  lemma {:induction false} CollapseFromLast(s: string, i: nat)
    requires i < |s|
    requires !IsSpace(s[|s| - 1])
    ensures var r := CollapseFrom(s, i); r != [] && !IsSpace(r[|r| - 1])
    decreases |s| - i
  {
    var j := if IsSpace(s[i]) then SkipSpace(s, i) else i + 1;
    if j < |s| {
      CollapseFromLast(s, j);
    }
  }

  /** Collapse of a trimmed string is trimmed, singly spaced and uses plain spaces only. */
  lemma CollapseShape(s: string)
    requires Trimmed(s)
    ensures Trimmed(Collapse(s)) && NoDoubleSpace(Collapse(s)) && PlainSpaces(Collapse(s))
  {
    CollapseFromSingle(s, 0);
    if s != [] {
      CollapseFromLast(s, 0);
    }
  }

  /** Collapse keeps the absence of upper-case letters. */
  lemma {:induction false} CollapseFromNoUpper(s: string, i: nat)
    requires i <= |s|
    requires NoUpper(s)
    ensures NoUpper(CollapseFrom(s, i))
    decreases |s| - i
  {
    if i < |s| {
      var j := if IsSpace(s[i]) then SkipSpace(s, i) else i + 1;
      CollapseFromNoUpper(s, j);
      var t := CollapseFrom(s, j);
      var r := CollapseFrom(s, i);
      assert forall k | 1 <= k < |r| :: r[k] == t[k - 1];
    }
  }

  /** Collapse leaves alone a string whose white space is already single plain spaces. */
  lemma {:induction false} CollapseFromIdentity(s: string, i: nat)
    requires i <= |s|
    requires PlainSpaces(s) && NoDoubleSpace(s)
    ensures CollapseFrom(s, i) == s[i..]
    decreases |s| - i
  {
    if i < |s| {
      if IsSpace(s[i]) {
        assert SkipSpace(s, i) == i + 1 by {
          assert i + 1 < |s| ==> !IsSpace(s[i + 1]);
        }
      }
      CollapseFromIdentity(s, i + 1);
      assert s[i..] == [s[i]] + s[i + 1..];
    }
  }

  lemma TrimmedTrim(s: string)
    requires Trimmed(s)
    ensures Trim(s) == s
  {
    if s != [] {
      assert SkipSpace(s, 0) == 0;
      assert SpaceRunStart(s, |s|) == |s|;
    }
  }

  lemma LowerNoUpper(s: string)
    requires NoUpper(s)
    ensures Lower(s) == s
  {
  }

  /** The character of a decimal digit. */
  function DigitChar(d: nat): (c: char)
    requires d < 10
    ensures '0' <= c <= '9'
  {
    (48 + d) as char
  }

  /** `String(n)` / `f"{n}"` for a natural number: its decimal digits, no leading zero. */
  function Decimal(n: nat): (r: string)
    ensures |r| >= 1
    ensures n >= 10 <==> |r| >= 2
    ensures forall k | 0 <= k < |r| :: '0' <= r[k] <= '9'
  {
    if n < 10 then [DigitChar(n)] else Decimal(n / 10) + [DigitChar(n % 10)]
  }

  /** Distinct numbers have distinct decimal forms. */
  lemma {:induction false} DecimalInjective(a: nat, b: nat)
    requires Decimal(a) == Decimal(b)
    ensures a == b
  {
    if a >= 10 {
      var da := Decimal(a);
      assert da[|da| - 1] == DigitChar(a % 10) == DigitChar(b % 10);
      assert da[..|da| - 1] == Decimal(a / 10) == Decimal(b / 10);
      DecimalInjective(a / 10, b / 10);
    }
  }
}
