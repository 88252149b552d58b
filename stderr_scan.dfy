/**
 * The forward pass of `LinuxCommandNotFound.GetFeedback` over the lines the
 * command-not-found utility writes to standard error.
 *
 * `Step`/`Run` are the pass one line at a time, exactly as the loop body does it;
 * `SudoActions` and `HeaderOf` say declaratively what the pass collects.
 * The lemmas connect the two, and `ReadStderr` is the loop itself.
 *
 * The source keeps `actions` null until the first action line and never
 * empties it afterwards, so here the empty sequence stands for that null.
 */
module StderrScan {
  import opened Options
  import opened Text

  const SUDO_PREFIX := "sudo "

  /** An action line starts with "sudo " under ordinal comparison. */
  predicate IsActionLine(line: string)
    ensures IsActionLine(line) ==> |line| >= |SUDO_PREFIX| && line != ""
  {
    StartsWith(line, SUDO_PREFIX)
  }

  /** What the loop has collected so far: the last header candidate and the actions. */
  datatype Scan = Scan(header: Option<string>, actions: seq<string>)

  const START := Scan(None, [])

  /** One turn of the loop: skip an empty line, append a trimmed action line, else (before any action) take the line as header. */
  function Step(s: Scan, line: string): (r: Scan)
    ensures s.actions <= r.actions && |r.actions| <= |s.actions| + 1
    ensures r.header != s.header ==> s.actions == [] && r.header == Some(line) && line != ""
    ensures line == "" ==> r == s
  {
    if line == "" then s
    else if IsActionLine(line) then s.(actions := s.actions + [TrimEnd(line)])
    else if s.actions == [] then s.(header := Some(line))
    else s
  }

  /** The loop run over `lines` from state `s`, until the lines are exhausted. */
  function Run(s: Scan, lines: seq<string>): (r: Scan)
    ensures s.actions <= r.actions && |r.actions| <= |s.actions| + |lines|
    ensures s.actions != [] ==> r.header == s.header
    decreases |lines|
  {
    if lines == [] then s else Run(Step(s, lines[0]), lines[1..])
  }

  /** Reference: every action line, trimmed at the end, in input order. */
  function SudoActions(lines: seq<string>): (r: seq<string>)
    ensures |r| <= |lines|
  {
    if lines == [] then []
    else (if IsActionLine(lines[0]) then [TrimEnd(lines[0])] else []) + SudoActions(lines[1..])
  }

  /** Reference: the index of the first action line, or |lines| when there is none. */
  function FirstAction(lines: seq<string>): (k: nat)
    ensures k <= |lines|
    ensures forall i | 0 <= i < k :: !IsActionLine(lines[i])
    ensures k < |lines| ==> IsActionLine(lines[k])
  {
    if lines == [] then 0
    else if IsActionLine(lines[0]) then 0
    else 1 + FirstAction(lines[1..])
  }

  /** Reference: the index of the last non-empty line, or -1 when every line is empty. */
  function LastNonEmpty(lines: seq<string>): (k: int)
    ensures -1 <= k < |lines|
    ensures k >= 0 ==> lines[k] != ""
    ensures forall j | k < j < |lines| :: lines[j] == ""
  {
    if lines == [] then -1
    else if lines[|lines| - 1] != "" then |lines| - 1
    else
      var k := LastNonEmpty(lines[..|lines| - 1]);
      assert forall j | k < j < |lines| - 1 :: lines[..|lines| - 1][j] == lines[j];
      k
  }

  /** Reference: the header is the last non-empty line before the first action line. */
  function HeaderOf(lines: seq<string>): (h: Option<string>)
    ensures h.None? <==> forall i | 0 <= i < FirstAction(lines) :: lines[i] == ""
    ensures h.Some? ==> h.value != "" && !IsActionLine(h.value)
  {
    var f := FirstAction(lines);
    var k := LastNonEmpty(lines[..f]);
    assert forall i | 0 <= i < f :: lines[..f][i] == lines[i];
    if k < 0 then None else Some(lines[k])
  }

  /** Running over a concatenation is running over the first part, then the second. */
  lemma {:induction false} RunAppend(s: Scan, a: seq<string>, b: seq<string>)
    ensures Run(s, a + b) == Run(Run(s, a), b)
    decreases |a|
  {
    if a == [] {
      assert a + b == b;
    } else {
      assert (a + b)[0] == a[0];
      assert (a + b)[1..] == a[1..] + b;
      RunAppend(Step(s, a[0]), a[1..], b);
    }
  }

  lemma RunSnoc(s: Scan, a: seq<string>, line: string)
    ensures Run(s, a + [line]) == Step(Run(s, a), line)
  {
    RunAppend(s, a, [line]);
    assert [line][1..] == [];
  }

  lemma {:induction false} SudoActionsAppend(a: seq<string>, b: seq<string>)
    ensures SudoActions(a + b) == SudoActions(a) + SudoActions(b)
    decreases |a|
  {
    if a == [] {
      assert a + b == b;
    } else {
      assert (a + b)[0] == a[0];
      assert (a + b)[1..] == a[1..] + b;
      SudoActionsAppend(a[1..], b);
      var first := if IsActionLine(a[0]) then [TrimEnd(a[0])] else [];
      calc {
        SudoActions(a + b);
        first + SudoActions(a[1..] + b);
        first + (SudoActions(a[1..]) + SudoActions(b));
        (first + SudoActions(a[1..])) + SudoActions(b);
        SudoActions(a) + SudoActions(b);
      }
    }
  }

  /** No action is collected exactly when no line is an action line. */
  lemma {:induction false} SudoActionsEmpty(lines: seq<string>)
    ensures SudoActions(lines) == [] <==> forall i | 0 <= i < |lines| :: !IsActionLine(lines[i])
    decreases |lines|
  {
    if lines != [] {
      SudoActionsEmpty(lines[1..]);
      assert forall i | 1 <= i < |lines| :: lines[1..][i - 1] == lines[i];
    }
  }

  /** The actions are exactly the trimmed action lines: no other line ever becomes an action. */
  lemma {:induction false} SudoActionsMembership(lines: seq<string>, a: string)
    ensures a in SudoActions(lines) <==> exists i | 0 <= i < |lines| :: IsActionLine(lines[i]) && a == TrimEnd(lines[i])
    decreases |lines|
  {
    if lines != [] {
      SudoActionsMembership(lines[1..], a);
      assert forall i | 1 <= i < |lines| :: lines[1..][i - 1] == lines[i];
      if a in SudoActions(lines[1..]) {
        var i :| 0 <= i < |lines[1..]| && IsActionLine(lines[1..][i]) && a == TrimEnd(lines[1..][i]);
        assert IsActionLine(lines[i + 1]) && a == TrimEnd(lines[i + 1]);
      }
    }
  }

  /** The prefix test needs the blank: a bare "sudo" line is not an action line. */
  lemma BareSudoNotAction()
    ensures !IsActionLine("sudo") && IsActionLine("sudo ")
  {
  }

  /** Every action still starts with "sudo" (the trailing blank of "sudo " may be trimmed away). */
  lemma ActionKeepsSudo(line: string)
    requires IsActionLine(line)
    ensures StartsWith(TrimEnd(line), "sudo")
  {
  }

  /**
   * An action line from the utility's output for `cargo`: the "# version"
   * comment and the doubled blank stay in the stored action; only the
   * trailing white space goes.
   */
  lemma VersionCommentKept()
    ensures TrimEnd("sudo apt  install cargo   # version 1.75.0  ") == "sudo apt  install cargo   # version 1.75.0"
  {
  }

  lemma {:induction false} FirstActionSnoc(a: seq<string>, line: string)
    ensures FirstAction(a + [line]) ==
      if FirstAction(a) < |a| then FirstAction(a)
      else if IsActionLine(line) then |a| else |a| + 1
  {
    var f := FirstAction(a + [line]);
    var g := FirstAction(a);
    assert forall i | 0 <= i < |a| :: (a + [line])[i] == a[i];
    if g < |a| {
      assert f <= g;
      assert !(f < g);
    } else {
      assert f >= |a|;
      assert (a + [line])[|a|] == line;
    }
  }

  /** While no action line has been read, the loop has collected no action. */
  lemma {:induction false} NoActionYet(lines: seq<string>)
    ensures Run(START, lines).actions == [] <==> FirstAction(lines) == |lines|
  {
    ScannedActions(lines);
    SudoActionsEmpty(lines);
  }

  /** The loop collects exactly `SudoActions`. */
  lemma {:induction false} ScannedActions(lines: seq<string>)
    ensures Run(START, lines).actions == SudoActions(lines)
    decreases |lines|
  {
    if lines == [] {
    } else {
      var p, l := lines[..|lines| - 1], lines[|lines| - 1];
      assert lines == p + [l];
      RunSnoc(START, p, l);
      ScannedActions(p);
      SudoActionsAppend(p, [l]);
      assert [l][1..] == [];
    }
  }

  /** The loop's header is `HeaderOf`: the last non-empty line before the first action line. */
  lemma {:induction false} ScannedHeader(lines: seq<string>)
    ensures Run(START, lines).header == HeaderOf(lines)
    decreases |lines|
  {
    if lines != [] {
      var p, l := lines[..|lines| - 1], lines[|lines| - 1];
      assert lines == p + [l];
      RunSnoc(START, p, l);
      ScannedHeader(p);
      NoActionYet(p);
      FirstActionSnoc(p, l);
      var f := FirstAction(p);
      if f < |p| {
        assert lines[..FirstAction(lines)] == p[..f];
      } else if IsActionLine(l) {
        assert lines[..FirstAction(lines)] == p[..f];
      } else {
        assert lines[..FirstAction(lines)] == lines;
        assert p[..f] == p;
        assert lines[..|lines| - 1] == p;
      }
    }
  }

  /** An empty line anywhere in the stream changes neither the header nor the actions. */
  lemma EmptyLineIgnored(a: seq<string>, b: seq<string>)
    ensures Run(START, a + [""] + b) == Run(START, a + b)
  {
    RunAppend(START, a + [""], b);
    RunSnoc(START, a, "");
    RunAppend(START, a, b);
  }

  /** Once an action line has been read, a later non-action line changes nothing. */
  lemma TextAfterActionIgnored(a: seq<string>, line: string, b: seq<string>)
    requires exists i | 0 <= i < |a| :: IsActionLine(a[i])
    requires !IsActionLine(line)
    ensures Run(START, a + [line] + b) == Run(START, a + b)
  {
    NoActionYet(a);
    RunAppend(START, a + [line], b);
    RunSnoc(START, a, line);
    RunAppend(START, a, b);
  }

  /** The usual shape of the utility's output: a header, an empty line, two action lines. */
  lemma HeaderThenTwoActions(h: string, a1: string, a2: string)
    requires h != "" && !IsActionLine(h) && IsActionLine(a1) && IsActionLine(a2)
    ensures HeaderOf([h, "", a1, a2]) == Some(h)
    ensures SudoActions([h, "", a1, a2]) == [TrimEnd(a1), TrimEnd(a2)]
  {
    var lines := [h, "", a1, a2];
    assert FirstAction(lines[2..]) == 0;
    assert FirstAction(lines[1..]) == 1;
    assert lines[..2] == [h, ""];
    assert lines[3..][1..] == [];
    assert SudoActions(lines[3..]) == [TrimEnd(lines[3])];
    assert SudoActions(lines[2..]) == [TrimEnd(lines[2])] + SudoActions(lines[3..]);
    assert SudoActions(lines[1..]) == SudoActions(lines[2..]);
  }

  /**
   * The `while (true)` loop over standard error: reads every line until the
   * stream is exhausted, skipping empty lines, collecting trimmed action lines,
   * and taking other lines as the header while no action has been seen.
   */
  method ReadStderr(lines: seq<string>) returns (header: Option<string>, actions: seq<string>)
    ensures actions == SudoActions(lines)
    ensures header == HeaderOf(lines)
  {
    header, actions := None, [];
    var i := 0;
    while i < |lines|
      invariant 0 <= i <= |lines|
      invariant Scan(header, actions) == Run(START, lines[..i])
    {
      var line := lines[i];
      assert lines[..i + 1] == lines[..i] + [line];
      RunSnoc(START, lines[..i], line);
      i := i + 1;
      if line == "" {
        continue;
      }
      if IsActionLine(line) {
        actions := actions + [TrimEnd(line)];
      } else if actions == [] {
        header := Some(line);
      }
    }
    assert lines[..i] == lines;
    ScannedActions(lines);
    ScannedHeader(lines);
  }
}
