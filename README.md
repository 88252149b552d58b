# command-not-found feedback provider, modelled in Dafny

This project models `LinuxCommandNotFound`, the PowerShell feedback provider
and command predictor in `src/FeedbackProvider.cs`. When a command is not
found, the provider runs the Linux `command-not-found` utility on the missing
command's name. It scans what the utility writes to standard error into a
header and a list of `sudo ...` remediation actions. It returns these to the
host as feedback and keeps the actions as prediction candidates. As the user
types, it offers the candidates that start with the typed text, ignoring case.
It forgets them once a command line is accepted.

Files, one module each:

- `options.dfy` (`Options`): `Option`, standing for the source's nullable references.
- `text.dfy` (`Text`): the .NET string operations the provider uses:
  `char.IsWhiteSpace`, `TrimEnd`, `Trim`, ordinal `StartsWith`, and
  `StartsWith`/`EndsWith` with `OrdinalIgnoreCase`.
- `stderr_scan.dfy` (`StderrScan`): the `while (true)` loop over the utility's
  standard error. `Step`/`Run` run it one line at a time. `SudoActions`,
  `FirstAction`, `LastNonEmpty` and `HeaderOf` say what it collects. Lemmas
  connect the two views, and `ReadStderr` is the loop itself, proved against
  them.
- `suggestions.dfy` (`Suggestions`): the matching done by `GetSuggestion`.
- `feedback_provider.dfy` (`FeedbackProvider`): the applicability gate, the
  result assembly, the specification of `GetFeedback`, and the class
  `LinuxCommandNotFound` with its `candidates` field (`_candidates`).

The host's inputs are parameters:

- whether the platform is Windows;
- the error record, reduced to its id and its target, where `None` is a null
  target;
- the resolved utility path, where `None` means no executable utility;
- `launch(path, argument)`, the outcome of starting the utility. It is `None`
  when `Process.Start` gives no process. Otherwise it holds the
  standard-error lines and the standard-output text.

Two definitions carry no contract of their own. `Text.StartsWith` is the
ordinal prefix test of `src/FeedbackProvider.cs:94`; `StderrScan.IsActionLine`
and the lemmas about it state what it decides. `LinuxCommandNotFound.Valid` is
the class invariant: the candidates are null or a non-empty list of `sudo`
commands, as the assignment at `src/FeedbackProvider.cs:107` guarantees. The
contracts of `GetFeedback` and `GetSuggestion` state it.

Points of the scan worth noting:

- Only zero-length lines are skipped. A line of spaces is not skipped: before
  the first action it becomes the header.
- The header is kept as read, without trimming.
- An action line keeps any `# version ...` comment and any doubled blank, as in
  `apt  install`. Only trailing white space is removed (`VersionCommentKept`).
- There are no indented `deb`/`snap` candidate lines, no derived
  `snap info` suggestions, and no footer taken from standard error. The footer
  comes only from standard output. The candidates are exactly the actions.
- `Process.Start` and the stream reads are not wrapped in any exception
  handler in the code (see Left out).

## Model

| member | source | states |
|---|---|---|
| Text.TrimEnd | src/FeedbackProvider.cs:97 | the result is a prefix of the line; everything removed is white space; the result is empty or ends in a non-white-space character |
| Text.Trim | src/FeedbackProvider.cs:109 | the trimmed text is empty exactly when the input is all white space; otherwise neither end is white space |
| Text.TrimStart | src/FeedbackProvider.cs:109 | the leading half of `Trim`: the result is a suffix of the text; everything removed is white space; the result is empty or starts with a non-white-space character |
| Text.LeadingWhiteSpace | src/FeedbackProvider.cs:109 | the position where the text's leading white space ends: everything before it is white space, and the character there is not |
| Text.TrimCutsWhiteSpace | src/FeedbackProvider.cs:109 | the trimmed text is the slice of the input that starts where the leading white space ends, is followed only by white space and does not end in white space: `Trim` removes white space from both ends and nothing else |
| Text.TrimmedFromUnique | src/FeedbackProvider.cs:109 | at most one string is the input with its white space cut from both ends, so that description fixes what `Trim` returns |
| Text.StartsWithIgnoreCaseSeesFold | src/FeedbackProvider.cs:142 | an ignore-case prefix test gives the same answer for the prefix and its case-folded form |
| Text.IsWhiteSpace | src/FeedbackProvider.cs:97-109 | the `char.IsWhiteSpace` set that `TrimEnd` and `Trim` remove: it holds blank and tab, and no printable ASCII character |
| Text.StartsWithIgnoreCase | src/FeedbackProvider.cs:142 | an ignore-case prefix is never longer than the text; an ordinal prefix is also an ignore-case prefix; the empty prefix always matches |
| Text.EndsWithIgnoreCase | src/FeedbackProvider.cs:62 | an ignore-case suffix is never longer than the text; an exact suffix is also an ignore-case suffix; the empty suffix always matches |
| StderrScan.IsActionLine | src/FeedbackProvider.cs:94 | an action line is at least as long as "sudo " and so never empty: the empty-line check and the action check never overlap |
| StderrScan.BareSudoNotAction | src/FeedbackProvider.cs:94 | a line "sudo" without the blank is not an action line; "sudo " is |
| StderrScan.Step | src/FeedbackProvider.cs:89-102 | one turn of the loop: the actions only grow, by at most one; the header changes only while there is no action, and only to the current non-empty line; an empty line changes nothing |
| StderrScan.Run | src/FeedbackProvider.cs:81-103 | the loop over all lines: the actions only grow, by at most one per line; once an action exists the header never changes again |
| StderrScan.SudoActions | src/FeedbackProvider.cs:94-98 | what the loop collects as actions, one right-trimmed entry per "sudo " line in input order; never more actions than lines |
| StderrScan.FirstAction | src/FeedbackProvider.cs:94-101 | the index of the first line starting with "sudo ": no earlier line is an action line, and the line there is one (or there is none) |
| StderrScan.LastNonEmpty | src/FeedbackProvider.cs:89-101 | the index of a non-empty line followed only by empty lines, or -1 when every line is empty |
| StderrScan.HeaderOf | src/FeedbackProvider.cs:99-102 | the header is absent exactly when every line before the first action line is empty; a header is never empty and never an action line |
| StderrScan.RunAppend | src/FeedbackProvider.cs:81-103 | the loop over a concatenation is the loop over the first part continued over the second: it consumes the whole stream line by line |
| StderrScan.SudoActionsAppend | src/FeedbackProvider.cs:94-98 | the actions of a concatenation are the actions of each part, in order |
| StderrScan.SudoActionsEmpty | src/FeedbackProvider.cs:94-98 | no action is collected exactly when no line starts with "sudo " |
| StderrScan.SudoActionsMembership | src/FeedbackProvider.cs:94-98 | a string is an action exactly when it is the right-trimmed form of some line starting with "sudo "; no other line becomes an action |
| StderrScan.ActionKeepsSudo | src/FeedbackProvider.cs:94-97 | a stored action still starts with "sudo" |
| StderrScan.VersionCommentKept | src/FeedbackProvider.cs:97 | the utility's `sudo apt  install cargo   # version ...` line is stored with its comment and doubled blank, minus trailing blanks |
| StderrScan.NoActionYet | src/FeedbackProvider.cs:96-99 | the loop has collected no action exactly when no line read so far is an action line (the `actions is null` test) |
| StderrScan.ScannedActions | src/FeedbackProvider.cs:81-103 | the loop's actions are exactly the right-trimmed "sudo " lines in input order |
| StderrScan.ScannedHeader | src/FeedbackProvider.cs:81-103 | the loop's header is the last non-empty line before the first action line |
| StderrScan.EmptyLineIgnored | src/FeedbackProvider.cs:89-92 | inserting an empty line anywhere changes neither the header nor the actions |
| StderrScan.TextAfterActionIgnored | src/FeedbackProvider.cs:99-102 | once an action line has been read, a later non-action line changes neither the header nor the actions |
| StderrScan.HeaderThenTwoActions | src/FeedbackProvider.cs:78-103 | a header line, an empty line and two action lines give that header and the two trimmed actions |
| StderrScan.ReadStderr | src/FeedbackProvider.cs:78-103 | the loop returns exactly the `SudoActions` of the lines and the `HeaderOf` the lines |
| Suggestions.Matching | src/FeedbackProvider.cs:140-147 | every returned candidate is stored and starts with the input, ignoring case; never more than stored |
| Suggestions.Suggest | src/FeedbackProvider.cs:135-155 | the default package exactly when there are no candidates or none matches; otherwise the non-empty `Matching` list: exactly the stored candidates that match, in stored order, repeats kept |
| Suggestions.MatchingAppend | src/FeedbackProvider.cs:140-146 | matching distributes over concatenation, so the stored order is preserved |
| Suggestions.MatchingMembership | src/FeedbackProvider.cs:140-146 | a candidate is returned exactly when it is stored and starts with the input, ignoring case |
| Suggestions.MatchingEmptyInput | src/FeedbackProvider.cs:142 | empty input matches every candidate: all come back in order |
| Suggestions.MatchingIgnoresCase | src/FeedbackProvider.cs:142 | two inputs that differ only in letter case get the same matches |
| Suggestions.UpperCaseInputMatches | src/FeedbackProvider.cs:142 | the candidate "sudo apt install cargo" is offered for the typed text "SUDO APT" |
| FeedbackProvider.Applicable | src/FeedbackProvider.cs:51-65 | feedback is considered only off Windows, for a CommandNotFoundException, with a non-null target not ending in a dot, p/P, s/S and 1 |
| FeedbackProvider.ScriptExtensionByCharacters | src/FeedbackProvider.cs:62 | ending in ".ps1" ignoring case means ending in a dot, 'p' or 'P', 's' or 'S', then '1' |
| FeedbackProvider.ScriptTargetRejected | src/FeedbackProvider.cs:62-65 | a target made of any stem and any casing of ".ps1" never passes the gate |
| FeedbackProvider.Assemble | src/FeedbackProvider.cs:105-113 | a result exists exactly with a header and an action; its footer is absent exactly when standard output is all white space, and a footer is the trimmed output with the Portrait layout |
| FeedbackProvider.FeedbackFor | src/FeedbackProvider.cs:49-118 | no feedback when the gate fails or no utility exists; feedback exactly when the utility ran and its stderr has an action line with a non-empty line before the first one; then its actions and header are those of the stderr lines, and the whole result, footer and layout included, is `Assemble` of them and the standard output |
| FeedbackProvider.SudoActionsAreSudo | src/FeedbackProvider.cs:94-107 | every action stored as a candidate starts with "sudo" |
| FeedbackProvider.LinuxCommandNotFound.constructor | src/FeedbackProvider.cs:12-17 | a new provider holds no candidates |
| FeedbackProvider.LinuxCommandNotFound.GetFeedback | src/FeedbackProvider.cs:49-118 | returns `FeedbackFor` of its inputs; the candidates become the returned actions when feedback is returned and are otherwise unchanged; keeps the candidates a non-empty list of "sudo" commands |
| FeedbackProvider.LinuxCommandNotFound.CanAcceptFeedback | src/FeedbackProvider.cs:124-131 | true exactly for the CommandLineAccepted kind |
| FeedbackProvider.LinuxCommandNotFound.GetSuggestion | src/FeedbackProvider.cs:133-156 | returns `Suggest` of the stored candidates and the input; with the class invariant, empty input returns every stored candidate; it has no `modifies` clause, so repeating it gives the same answer |
| FeedbackProvider.LinuxCommandNotFound.OnCommandLineAccepted | src/FeedbackProvider.cs:158-162 | the candidates become null, so `GetSuggestion` returns the default package until the next feedback |

## Left out

- `GetUtilityPath` and `IsFileExecutable` (file existence and Unix permission checks): the resolved path is an input.
- Process start, `ReadLine` and `ReadToEnd`: replaced by the `launch` parameter's line sequence and text. Lines never contain line breaks, since `ReadLine` splits on them.
- Exceptions: `Process.Start` throwing, and the `(string)` cast of a non-string `TargetObject`, propagate in the source. The model has no exceptions: the target is a string or null.
- `Platform.IsWindows`, `ErrorRecord` and `context.InputAst.Extent.Text`: plain inputs. The unused `commandLine`, `client` and `history` parameters are omitted.
- `CancellationToken` parameters: the code never consults them.
- `Init` (subsystem registration), the `Guid`, `Name`, `Description` and `FunctionsToDefine`: plugin plumbing.
- `OnSuggestionDisplayed`, `OnSuggestionAccepted`, `OnCommandLineExecuted`: empty bodies.
- `PredictiveSuggestion` and `SuggestionPackage` wrappers: a package is an `Option<seq<string>>`, where `None` is `default`.
- The `FeedbackItem` class is not part of this model: which layout its two-argument constructor picks is left as `layout == None`.
- Text.StartsWithIgnoreCase: folds only ASCII letters, where `OrdinalIgnoreCase` uses full Unicode simple case mapping.
- Text.EndsWithIgnoreCase: the same ASCII-only folding.
- Concurrency: the model assumes calls never overlap. The host may run `GetSuggestion` while `GetFeedback` (`src/FeedbackProvider.cs:107`) or `OnCommandLineAccepted` (`src/FeedbackProvider.cs:161`) assigns `_candidates`. `GetSuggestion` reads that field without a lock three times (`src/FeedbackProvider.cs:135`, `140`, `144`) and could see different values. The model reads it once.
- Aliasing: `_candidates` and the returned `FeedbackItem` share one `List<string>` in the source; the model copies values, and nothing in the code mutates the list after the assignment.
