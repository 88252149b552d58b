/**
 * What `LinuxCommandNotFound.GetSuggestion` computes from the stored
 * candidates: the candidates that start with the typed text, ignoring case,
 * in their stored order.
 */
module Suggestions {
  import opened Options
  import opened Text

  /** The candidates that start with `input` under ignore-case comparison, in order. */
  function Matching(candidates: seq<string>, input: string): (r: seq<string>)
    ensures |r| <= |candidates|
    ensures forall c | c in r :: c in candidates && StartsWithIgnoreCase(c, input)
  {
    if candidates == [] then []
    else
      (if StartsWithIgnoreCase(candidates[0], input) then [candidates[0]] else [])
      + Matching(candidates[1..], input)
  }

  /**
   * The suggestion package: none (the default package) when there is no
   * candidate list or nothing matches, otherwise the non-empty list of matches.
   */
  function Suggest(candidates: Option<seq<string>>, input: string): (r: Option<seq<string>>)
    ensures candidates.None? ==> r.None?
    ensures r.None? <==>
      candidates.None? || forall c | c in candidates.value :: !StartsWithIgnoreCase(c, input)
    ensures r.Some? ==> r.value != [] && r.value == Matching(candidates.value, input)
    ensures r.Some? ==>
      forall c | c in candidates.value :: (c in r.value <==> StartsWithIgnoreCase(c, input))
  {
    match candidates
    case None => None
    case Some(cs) =>
      var m := Matching(cs, input);
      MatchingMembership(cs, input);
      assert m != [] ==> m[0] in m;
      if m == [] then None else Some(m)
  }

  /** Matching distributes over concatenation, so the stored order is kept. */
  lemma {:induction false} MatchingAppend(a: seq<string>, b: seq<string>, input: string)
    ensures Matching(a + b, input) == Matching(a, input) + Matching(b, input)
    decreases |a|
  {
    if a == [] {
      assert a + b == b;
    } else {
      assert (a + b)[0] == a[0];
      assert (a + b)[1..] == a[1..] + b;
      MatchingAppend(a[1..], b, input);
    }
  }

  /** A candidate is returned exactly when it is stored and matches. */
  lemma {:induction false} MatchingMembership(candidates: seq<string>, input: string)
    ensures forall c :: c in Matching(candidates, input) <==> c in candidates && StartsWithIgnoreCase(c, input)
    decreases |candidates|
  {
    if candidates != [] {
      MatchingMembership(candidates[1..], input);
      assert candidates == [candidates[0]] + candidates[1..];
    }
  }

  /** Empty input matches every candidate: all of them come back, in order. */
  lemma {:induction false} MatchingEmptyInput(candidates: seq<string>)
    ensures Matching(candidates, "") == candidates
    decreases |candidates|
  {
    if candidates != [] {
      MatchingEmptyInput(candidates[1..]);
      assert StartsWithIgnoreCase(candidates[0], "");
    }
  }

  /** The matches depend only on the case-folded form of the input. */
  lemma {:induction false} MatchingIgnoresCase(candidates: seq<string>, input: string, other: string)
    requires Fold(input) == Fold(other)
    ensures Matching(candidates, input) == Matching(candidates, other)
    decreases |candidates|
  {
    if candidates != [] {
      MatchingIgnoresCase(candidates[1..], input, other);
      StartsWithIgnoreCaseSeesFold(candidates[0], input);
      StartsWithIgnoreCaseSeesFold(candidates[0], other);
    }
  }

  /** A stored "sudo apt install cargo" is offered for the typed text "SUDO APT". */
  lemma UpperCaseInputMatches()
    ensures Matching(["sudo apt install cargo"], "SUDO APT") == ["sudo apt install cargo"]
  {
  }
}
