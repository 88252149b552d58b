/**
 * The .NET string operations the provider relies on: `char.IsWhiteSpace`,
 * `TrimEnd()`, `Trim()`, ordinal `StartsWith` and the `OrdinalIgnoreCase`
 * forms of `StartsWith` and `EndsWith`.
 */
module Text {

  /** `char.IsWhiteSpace`: the Unicode White_Space characters .NET recognises. */
  predicate IsWhiteSpace(c: char)
    ensures c == ' ' || c == '\t' ==> IsWhiteSpace(c)
    ensures IsWhiteSpace(c) ==> !('!' <= c <= '~')
  {
    ('\U{0009}' <= c <= '\U{000D}') || c == '\U{0020}' || c == '\U{0085}' || c == '\U{00A0}'
    || c == '\U{1680}' || ('\U{2000}' <= c <= '\U{200A}') || c == '\U{2028}' || c == '\U{2029}'
    || c == '\U{202F}' || c == '\U{205F}' || c == '\U{3000}'
  }

  /** `s.TrimEnd()`: drops the trailing white space and nothing else. */
  function TrimEnd(s: string): (r: string)
    ensures r <= s
    ensures forall i | |r| <= i < |s| :: IsWhiteSpace(s[i])
    ensures r == [] || !IsWhiteSpace(r[|r| - 1])
  {
    if s == [] || !IsWhiteSpace(s[|s| - 1]) then s else TrimEnd(s[..|s| - 1])
  }

  /** The leading half of `s.Trim()`: drops the leading white space and nothing else. */
  function TrimStart(s: string): (r: string)
    ensures |r| <= |s| && r == s[|s| - |r|..]
    ensures forall i | 0 <= i < |s| - |r| :: IsWhiteSpace(s[i])
    ensures r == [] || !IsWhiteSpace(r[0])
  {
    if s == [] || !IsWhiteSpace(s[0]) then s else TrimStart(s[1..])
  }

  /** The length of the run of white space that `s` starts with. */
  function LeadingWhiteSpace(s: string): (n: nat)
    ensures n <= |s|
    ensures forall k | 0 <= k < n :: IsWhiteSpace(s[k])
    ensures n == |s| || !IsWhiteSpace(s[n])
  {
    if s == [] || !IsWhiteSpace(s[0]) then 0 else 1 + LeadingWhiteSpace(s[1..])
  }

  /** Only one position ends the leading run of white space. */
  lemma LeadingWhiteSpaceUnique(s: string, n: nat)
    requires n <= |s|
    requires forall k | 0 <= k < n :: IsWhiteSpace(s[k])
    requires n == |s| || !IsWhiteSpace(s[n])
    ensures n == LeadingWhiteSpace(s)
  {
  }

  /**
   * `r` is `s` with its leading and its trailing white space cut: the slice
   * that starts where the leading white space ends, followed only by white
   * space, and not itself ending in white space.
   */
  predicate TrimmedFrom(s: string, r: string)
  {
    && LeadingWhiteSpace(s) + |r| <= |s|
    && r == s[LeadingWhiteSpace(s)..LeadingWhiteSpace(s) + |r|]
    && (forall k | LeadingWhiteSpace(s) + |r| <= k < |s| :: IsWhiteSpace(s[k]))
    && (r != [] ==> !IsWhiteSpace(r[|r| - 1]))
  }

  /** `s.Trim()`: empty exactly when `s` is all white space; otherwise neither end is white space. */
  function Trim(s: string): (r: string)
    ensures r == [] <==> forall i | 0 <= i < |s| :: IsWhiteSpace(s[i])
    ensures r != [] ==> !IsWhiteSpace(r[0]) && !IsWhiteSpace(r[|r| - 1])
  {
    var tail := TrimEnd(s);
    var r := TrimStart(tail);
    assert r != [] ==> r[|r| - 1] == tail[|tail| - 1];
    r
  }

  /** `Trim` cuts exactly the leading and the trailing white space, and nothing else. */
  lemma TrimCutsWhiteSpace(s: string)
    ensures TrimmedFrom(s, Trim(s))
  {
    var tail := TrimEnd(s);
    var r := TrimStart(tail);
    if r == [] {
      assert forall k | 0 <= k < |s| :: IsWhiteSpace(s[k]);
      LeadingWhiteSpaceUnique(s, |s|);
    } else {
      SuffixOfPrefix(s, tail, r);
      CutBetweenWhiteSpace(s, |tail| - |r|, r);
    }
  }

  /** At most one string is `s` trimmed, so `TrimmedFrom` pins `Trim(s)` down completely. */
  lemma TrimmedFromUnique(s: string, r1: string, r2: string)
    requires TrimmedFrom(s, r1) && TrimmedFrom(s, r2)
    ensures r1 == r2
  {
  }

  /**
   * A suffix `r` of a prefix `tail` of `s` is a slice of `s`, and what `r`
   * drops from the front of `tail` is the front of `s`.
   */
  lemma SuffixOfPrefix(s: string, tail: string, r: string)
    requires tail <= s
    requires |r| <= |tail| && r == tail[|tail| - |r|..]
    requires forall k | 0 <= k < |tail| - |r| :: IsWhiteSpace(tail[k])
    ensures r == s[|tail| - |r|..|tail|]
    ensures forall k | 0 <= k < |tail| - |r| :: IsWhiteSpace(s[k])
  {
    assert tail == s[..|tail|];
  }

  /**
   * A non-empty slice whose ends are not white space, with only white space
   * before and after it, is what trimming `s` leaves.
   */
  lemma CutBetweenWhiteSpace(s: string, i: nat, r: string)
    requires i + |r| <= |s| && r == s[i..i + |r|] && r != []
    requires forall k | 0 <= k < i :: IsWhiteSpace(s[k])
    requires forall k | i + |r| <= k < |s| :: IsWhiteSpace(s[k])
    requires !IsWhiteSpace(r[0]) && !IsWhiteSpace(r[|r| - 1])
    ensures TrimmedFrom(s, r)
  {
    assert s[i] == r[0];
    LeadingWhiteSpaceUnique(s, i);
  }

  /** `s.StartsWith(prefix, StringComparison.Ordinal)`. */
  predicate StartsWith(s: string, prefix: string)
  {
    |prefix| <= |s| && s[..|prefix|] == prefix
  }

  /**
   * The case folding behind `OrdinalIgnoreCase`, restricted to ASCII:
   * upper-case Latin letters map to lower case, every other character to itself.
   */
  function FoldChar(c: char): char
  {
    if 'A' <= c <= 'Z' then (c as int + 32) as char else c
  }

  function Fold(s: string): string
  {
    seq(|s|, i requires 0 <= i < |s| => FoldChar(s[i]))
  }

  /** `s.StartsWith(prefix, StringComparison.OrdinalIgnoreCase)`. */
  predicate StartsWithIgnoreCase(s: string, prefix: string)
    ensures StartsWithIgnoreCase(s, prefix) ==> |prefix| <= |s|
    ensures StartsWith(s, prefix) ==> StartsWithIgnoreCase(s, prefix)
    ensures prefix == "" ==> StartsWithIgnoreCase(s, prefix)
  {
    |prefix| <= |s| && Fold(s[..|prefix|]) == Fold(prefix)
  }

  /** `s.EndsWith(suffix, StringComparison.OrdinalIgnoreCase)`. */
  predicate EndsWithIgnoreCase(s: string, suffix: string)
    ensures EndsWithIgnoreCase(s, suffix) ==> |suffix| <= |s|
    ensures |suffix| <= |s| && s[|s| - |suffix|..] == suffix ==> EndsWithIgnoreCase(s, suffix)
    ensures suffix == "" ==> EndsWithIgnoreCase(s, suffix)
  {
    |suffix| <= |s| && Fold(s[|s| - |suffix|..]) == Fold(suffix)
  }

  /** An ignore-case prefix test sees only the case-folded form of the prefix. */
  lemma StartsWithIgnoreCaseSeesFold(s: string, prefix: string)
    ensures StartsWithIgnoreCase(s, prefix) == StartsWithIgnoreCase(s, Fold(prefix))
  {
  }

  /** A character folds to a non-letter exactly when it is that non-letter. */
  lemma FoldCharKeepsNonLetters(c: char, d: char)
    requires !('a' <= d <= 'z') && !('A' <= d <= 'Z')
    ensures FoldChar(c) == d <==> c == d
  {
  }
}
