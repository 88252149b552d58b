/**
 * `LinuxCommandNotFound`: the PowerShell feedback provider and command
 * predictor backed by the Linux command-not-found utility.
 *
 * The host's inputs become parameters: whether the platform is Windows, the
 * last error record, the resolved utility path, and `launch`, the outcome of
 * starting the utility at a path with one argument (`None` when no process
 * was started, otherwise its standard-error lines and its standard-output text).
 */
module FeedbackProvider {
  import opened Options
  import opened Text
  import opened StderrScan
  import opened Suggestions

  const COMMAND_NOT_FOUND_ERROR_ID := "CommandNotFoundException"
  const SCRIPT_EXTENSION := ".ps1"

  datatype FeedbackDisplayLayout = Portrait | Landscape

  /**
   * The feedback handed back to the host. `layout == None` is the layout that
   * the two-argument `FeedbackItem` constructor picks on its own.
   */
  datatype FeedbackItem = FeedbackItem(
    header: string,
    actions: seq<string>,
    footer: Option<string>,
    layout: Option<FeedbackDisplayLayout>)

  /** The parts of the PowerShell `ErrorRecord` the provider reads; `None` is a null target. */
  datatype ErrorRecord = ErrorRecord(fullyQualifiedErrorId: string, targetObject: Option<string>)

  /** What a started utility process produced. */
  datatype ToolOutput = ToolOutput(stderrLines: seq<string>, stdoutText: string)

  datatype PredictorFeedbackKind =
    | SuggestionDisplayed
    | SuggestionAccepted
    | CommandLineAccepted
    | CommandLineExecuted

  /**
   * The gate at the top of `GetFeedback`: not on Windows, a command-not-found
   * error, a non-null target, and a target that is not a ".ps1" script in any
   * letter case.
   */
  function Applicable(isWindows: bool, lastError: ErrorRecord): (ok: bool)
    ensures ok <==>
      && !isWindows
      && lastError.fullyQualifiedErrorId == COMMAND_NOT_FOUND_ERROR_ID
      && lastError.targetObject.Some?
      && var t := lastError.targetObject.value;
         !(|t| >= 4 && t[|t| - 4] == '.' && t[|t| - 3] in "pP" && t[|t| - 2] in "sS" && t[|t| - 1] == '1')
  {
    if isWindows || lastError.fullyQualifiedErrorId != COMMAND_NOT_FOUND_ERROR_ID then false
    else if lastError.targetObject.None? then false
    else
      var t := lastError.targetObject.value;
      ScriptExtensionByCharacters(t);
      !EndsWithIgnoreCase(t, SCRIPT_EXTENSION)
  }

  /** Ending in ".ps1" ignoring case means: a dot, 'p' or 'P', 's' or 'S', then '1'. */
  lemma ScriptExtensionByCharacters(t: string)
    ensures EndsWithIgnoreCase(t, SCRIPT_EXTENSION) <==>
      |t| >= 4 && t[|t| - 4] == '.' && t[|t| - 3] in "pP" && t[|t| - 2] in "sS" && t[|t| - 1] == '1'
  {
    if |t| >= 4 {
      var tail := t[|t| - 4..];
      FoldCharKeepsNonLetters(tail[0], '.');
      FoldCharKeepsNonLetters(tail[3], '1');
      assert 'P' as int + 32 == 'p' as int && 'S' as int + 32 == 's' as int;
      assert Fold(tail) == [FoldChar(tail[0]), FoldChar(tail[1]), FoldChar(tail[2]), FoldChar(tail[3])];
      assert SCRIPT_EXTENSION == ['.', 'p', 's', '1'];
      assert FoldChar(tail[1]) == 'p' <==> tail[1] in "pP";
      assert FoldChar(tail[2]) == 's' <==> tail[2] in "sS";
      assert tail[0] == t[|t| - 4] && tail[1] == t[|t| - 3] && tail[2] == t[|t| - 2] && tail[3] == t[|t| - 1];
      assert Fold(tail) == SCRIPT_EXTENSION <==>
        FoldChar(tail[0]) == '.' && FoldChar(tail[1]) == 'p' && FoldChar(tail[2]) == 's' && FoldChar(tail[3]) == '1';
    }
  }

  /**
   * The result assembly after the loop: feedback exists only with a header and
   * at least one action; the trimmed standard output, when not empty, becomes
   * the footer and asks for the Portrait layout.
   */
  function Assemble(header: Option<string>, actions: seq<string>, stdoutText: string): (r: Option<FeedbackItem>)
    ensures r.Some? <==> header.Some? && actions != []
    ensures r.Some? ==> r.value.header == header.value && r.value.actions == actions
    ensures r.Some? ==>
      (r.value.footer.None? <==> forall i | 0 <= i < |stdoutText| :: IsWhiteSpace(stdoutText[i]))
    ensures r.Some? && r.value.footer.Some? ==>
      r.value.footer.value == Trim(stdoutText) && r.value.layout == Some(Portrait)
    ensures r.Some? && r.value.footer.None? ==> r.value.layout.None?
  {
    if actions == [] || header.None? then None
    else
      var footer := Trim(stdoutText);
      if footer == "" then Some(FeedbackItem(header.value, actions, None, None))
      else Some(FeedbackItem(header.value, actions, Some(footer), Some(Portrait)))
  }

  /** What `GetFeedback` returns, as a function of its inputs. */
  function FeedbackFor(
    isWindows: bool,
    lastError: ErrorRecord,
    utilityPath: Option<string>,
    launch: (string, string) -> Option<ToolOutput>): (r: Option<FeedbackItem>)
    ensures !Applicable(isWindows, lastError) ==> r.None?
    ensures utilityPath.None? ==> r.None?
    ensures r.Some? <==>
      && Applicable(isWindows, lastError)
      && utilityPath.Some?
      && launch(utilityPath.value, lastError.targetObject.value).Some?
      && var lines := launch(utilityPath.value, lastError.targetObject.value).value.stderrLines;
         && FirstAction(lines) < |lines|
         && exists j | 0 <= j < FirstAction(lines) :: lines[j] != ""
    ensures r.Some? ==>
      var lines := launch(utilityPath.value, lastError.targetObject.value).value.stderrLines;
      && r.value.actions == SudoActions(lines)
      && HeaderOf(lines) == Some(r.value.header)
    ensures r.Some? ==>
      var output := launch(utilityPath.value, lastError.targetObject.value).value;
      r == Assemble(HeaderOf(output.stderrLines), SudoActions(output.stderrLines), output.stdoutText)
  {
    if !Applicable(isWindows, lastError) || utilityPath.None? then None
    else
      match launch(utilityPath.value, lastError.targetObject.value)
      case None => None
      case Some(output) =>
        var lines := output.stderrLines;
        SudoActionsEmpty(lines);
        Assemble(HeaderOf(lines), SudoActions(lines), output.stdoutText)
  }

  /** Every stored action is a "sudo" command. */
  lemma SudoActionsAreSudo(lines: seq<string>)
    ensures forall a | a in SudoActions(lines) :: StartsWith(a, "sudo")
  {
    forall a | a in SudoActions(lines)
      ensures StartsWith(a, "sudo")
    {
      SudoActionsMembership(lines, a);
      var i :| 0 <= i < |lines| && IsActionLine(lines[i]) && a == TrimEnd(lines[i]);
      ActionKeepsSudo(lines[i]);
    }
  }

  /** A ".ps1" script target, in any letter case, never gets feedback. */
  lemma ScriptTargetRejected(isWindows: bool, stem: string, extension: string)
    requires Fold(extension) == Fold(SCRIPT_EXTENSION)
    ensures !Applicable(isWindows, ErrorRecord(COMMAND_NOT_FOUND_ERROR_ID, Some(stem + extension)))
  {
  }

  class LinuxCommandNotFound {
    /** `_candidates`: the actions of the last feedback given, until a command line is accepted. */
    var candidates: Option<seq<string>>

    /** Stored candidates are never an empty list, and each is a "sudo" command. */
    ghost predicate Valid()
      reads this
    {
      candidates.Some? ==>
        candidates.value != [] && forall c | c in candidates.value :: StartsWith(c, "sudo")
    }

    constructor ()
      ensures Valid() && candidates.None?
    {
      candidates := None;
    }

    /**
     * Decides whether the failure deserves feedback, runs the utility on the
     * target, scans its standard error and, when there is a header and an
     * action, stores the actions as candidates and returns the feedback.
     */
    method GetFeedback(
      isWindows: bool,
      lastError: ErrorRecord,
      utilityPath: Option<string>,
      launch: (string, string) -> Option<ToolOutput>) returns (r: Option<FeedbackItem>)
      requires Valid()
      modifies this
      ensures Valid()
      ensures r == FeedbackFor(isWindows, lastError, utilityPath, launch)
      ensures candidates == if r.Some? then Some(r.value.actions) else old(candidates)
    {
      if isWindows || lastError.fullyQualifiedErrorId != COMMAND_NOT_FOUND_ERROR_ID {
        return None;
      }
      if lastError.targetObject.None? {
        return None;
      }
      var target := lastError.targetObject.value;
      if EndsWithIgnoreCase(target, SCRIPT_EXTENSION) {
        return None;
      }
      if utilityPath.Some? {
        var process := launch(utilityPath.value, target);
        if process.Some? {
          var header, actions := ReadStderr(process.value.stderrLines);
          if actions != [] && header.Some? {
            SudoActionsAreSudo(process.value.stderrLines);
            candidates := Some(actions);
            var footer := Trim(process.value.stdoutText);
            if footer == "" {
              return Some(FeedbackItem(header.value, actions, None, None));
            } else {
              return Some(FeedbackItem(header.value, actions, Some(footer), Some(Portrait)));
            }
          }
        }
      }
      return None;
    }

    /** Only the acceptance of a command line is reported to this predictor. */
    function CanAcceptFeedback(kind: PredictorFeedbackKind): (accepted: bool)
      ensures accepted <==> kind == CommandLineAccepted
    {
      match kind
      case CommandLineAccepted => true
      case _ => false
    }

    /**
     * The stored candidates that start with the typed text, ignoring case, in
     * their stored order; the default package (`None`) when nothing is stored
     * or nothing matches. Reads the candidates and changes nothing.
     */
    method GetSuggestion(input: string) returns (suggestions: Option<seq<string>>)
      ensures suggestions == Suggest(candidates, input)
      ensures Valid() && candidates.Some? && input == "" ==> suggestions == candidates
    {
      if candidates.Some? {
        var cs := candidates.value;
        var result: seq<string> := [];
        for i := 0 to |cs|
          invariant result == Matching(cs[..i], input)
        {
          assert cs[..i + 1] == cs[..i] + [cs[i]];
          MatchingAppend(cs[..i], [cs[i]], input);
          assert [cs[i]][1..] == [];
          if StartsWithIgnoreCase(cs[i], input) {
            result := result + [cs[i]];
          }
        }
        assert cs[..|cs|] == cs;
        MatchingEmptyInput(cs);
        if result != [] {
          return Some(result);
        }
      }
      return None;
    }

    /** Resets the candidates once the user accepts a command line. */
    method OnCommandLineAccepted()
      requires Valid()
      modifies this
      ensures Valid() && candidates.None?
    {
      candidates := None;
    }
  }
}
