# FastlaneTwilio2FA in Dafny

FastlaneTwilio2FA is a console tool. It starts `fastlane spaceauth`, which asks
Apple to send a two-factor code by SMS to a Twilio number. It then polls Twilio
for that SMS and writes the six-digit code to fastlane's standard input. This
project models the tool's one source file, `src/FastlaneTwilio2FA/Program.cs`,
and proves properties of the model:

- `Text`: the .NET string primitives used by the program. These are
  `string.IsNullOrWhiteSpace` (with `char.IsWhiteSpace`'s full list), an
  ordinal ignore-case `Contains`, and the regular expression
  `(?<code>[0-9]{6})`: whether it matches, and the value of its `code` group.
- `Messages`: one poll's decision. The pipeline is
  `Where`/`Where`/`Where`/`OrderByDescending`/`FirstOrDefault` over a fetched
  batch. It is followed by the two-minute freshness check, the blank-body
  guard and the code extraction. `OrderByDescending` is modelled as the
  stable sort LINQ defines.
- `SpaceAuth`: `RunSpaceAuth` as a function.
  - Its inputs are the fastlane process's state after the ten-second grace
    wait and the finite sequence of polls that drives the `while (true)` loop.
  - A clean exit returns at once.
  - A failed exit reports the failure and takes fastlane's exit code. It does
    not return: it falls through into the polling loop.
  - The loop returns after the first code it writes. There is no timeout and
    no record of codes already used.
- `EnvVars`: `EnvironmentVariableMagic` and the five calls of `Main`, as
  functions over the process environment. They follow .NET's rule that setting
  a variable to the empty string, or to a value starting with NUL, deletes it.
- `Program`: the `Program` class as a `Host` object whose fields are the
  environment, `Environment.ExitCode`, the lines written, the fetch count and
  the static parameter fields. `RunMain` is `Main`. `RunSpaceAuth` and
  `EnvironmentVariableMagic` are methods that update those fields in place.
  Each method is proved against the functions above.

Timestamps are .NET ticks (100 ns). `DateTime.UtcNow` at the freshness check
is part of each poll's input.

## Model

| member | source | states |
|---|---|---|
| Text.IndexOfIgnoreCase | src/FastlaneTwilio2FA/Program.cs:117 | the result is the leftmost index at or after `from` where the pattern occurs ignoring ASCII case; None means it occurs at no such index |
| Text.ContainsIgnoreCaseSpec | src/FastlaneTwilio2FA/Program.cs:117 | the ignore-case `Contains` holds exactly when the marker occurs at some index |
| Text.FindDigitRun | src/FastlaneTwilio2FA/Program.cs:112 | the regex scan returns the leftmost index at or after `from` where six ASCII digits begin; None means there is none |
| Text.CodeMatchSpec | src/FastlaneTwilio2FA/Program.cs:112-136 | the `code` group is empty exactly when the regex does not match; otherwise it is six ASCII digits, taken from the leftmost index where six digits begin |
| Text.IsWhiteSpace | src/FastlaneTwilio2FA/Program.cs:132 | `char.IsWhiteSpace`: the space separators, U+0009 to U+000D, U+0085 and the line and paragraph separators |
| Text.IsNullOrWhiteSpace | src/FastlaneTwilio2FA/Program.cs:31-32 | `string.IsNullOrWhiteSpace`: null, or every character white space (so also the empty string); used again at lines 132 and 148 |
| Text.ContainsIgnoreCase | src/FastlaneTwilio2FA/Program.cs:117 | `Contains(..., StringComparison.OrdinalIgnoreCase)`: the ignore-case search finds an occurrence from index 0 |
| Text.HasDigitRun | src/FastlaneTwilio2FA/Program.cs:118 | `regex.IsMatch`: six ASCII digits begin at some index |
| Text.CodeMatch | src/FastlaneTwilio2FA/Program.cs:135-136 | `regex.Match(...).Groups["code"].Value`: the six characters at the leftmost match, or "" when there is none |
| Text.FindDigitRunSkips | src/FastlaneTwilio2FA/Program.cs:112 | the scan passes over every index without a run and stops at the first index with one |
| Text.LongRunExample | src/FastlaneTwilio2FA/Program.cs:135-136 | the code taken from "1234567" is "123456" |
| Text.ShortRunSkippedExample | src/FastlaneTwilio2FA/Program.cs:135-136 | in "ab12345x678901" the five-digit run is skipped and the code is "678901" |
| Messages.IsInbound | src/FastlaneTwilio2FA/Program.cs:116 | the first filter: the message's direction is `Inbound` |
| Messages.IsMarked | src/FastlaneTwilio2FA/Program.cs:117 | the second filter: the body contains "Your Apple ID Verification Code", ignoring case |
| Messages.HasCode | src/FastlaneTwilio2FA/Program.cs:118 | the third filter: the regex matches the body |
| Messages.Qualifies | src/FastlaneTwilio2FA/Program.cs:116-118 | a message passes all three filters |
| Messages.Where | src/FastlaneTwilio2FA/Program.cs:116-118 | `Enumerable.Where`: the elements satisfying the predicate, in their original order |
| Messages.OrderByDateDescending | src/FastlaneTwilio2FA/Program.cs:119 | `OrderByDescending(x => x.DateCreated)` as a stable insertion sort; the result has the input's length |
| Messages.FirstOrDefault | src/FastlaneTwilio2FA/Program.cs:120 | `FirstOrDefault`: the first element, or null for an empty sequence |
| Messages.Select | src/FastlaneTwilio2FA/Program.cs:115-120 | the `mostRecentMessage` pipeline: three filters, the sort, then the first element |
| Messages.IsStale | src/FastlaneTwilio2FA/Program.cs:129 | the pick is skipped when created strictly before now minus two minutes |
| Messages.PollCode | src/FastlaneTwilio2FA/Program.cs:115-136 | one iteration: nothing when the pick is null, stale or blank-bodied, else the regex code of its body |
| Messages.WhereMembers | src/FastlaneTwilio2FA/Program.cs:116-118 | a `Where` filter keeps exactly the elements satisfying its predicate and never lengthens the sequence |
| Messages.WhereChain | src/FastlaneTwilio2FA/Program.cs:116-118 | the three chained filters keep exactly the messages that are inbound, marked and carry a code, in their fetched order |
| Messages.InsertByDate | src/FastlaneTwilio2FA/Program.cs:119 | inserting adds one element; the head is the new message when it is at least as new as the old head |
| Messages.InsertPermutes | src/FastlaneTwilio2FA/Program.cs:119 | inserting adds the message and loses nothing (multiset) |
| Messages.InsertKeepsSorted | src/FastlaneTwilio2FA/Program.cs:119 | inserting into a newest-first sequence keeps it newest-first |
| Messages.OrderByDateDescendingSpec | src/FastlaneTwilio2FA/Program.cs:119 | `OrderByDescending(x => x.DateCreated)` returns a permutation of its input, sorted newest first |
| Messages.SelectCons | src/FastlaneTwilio2FA/Program.cs:115-120 | putting a message in front of a batch makes it the pick when it qualifies and is at least as new as the old pick; otherwise the pick is unchanged |
| Messages.SelectSpec | src/FastlaneTwilio2FA/Program.cs:115-123 | `mostRecentMessage` is null exactly when no message qualifies; otherwise it is at an index where the message qualifies, none is newer, and every qualifying message fetched earlier is older |
| Messages.ChosenAtUnique | src/FastlaneTwilio2FA/Program.cs:115-120 | at most one index is the pick, so the result is determined |
| Messages.MarkedBodyNotBlank | src/FastlaneTwilio2FA/Program.cs:117-133 | a body containing the marker is never null or white space, so the guard at line 132 cannot reject the pick |
| Messages.PollCodeSpec | src/FastlaneTwilio2FA/Program.cs:115-136 | a poll writes a line exactly when the pick exists and is not older than two minutes; the line is then the `code` group of that message's body |
| Messages.PollCodeDigits | src/FastlaneTwilio2FA/Program.cs:118-136 | a line a poll writes is six ASCII digits, never the empty group value |
| Messages.StaleCheckAfterRanking | src/FastlaneTwilio2FA/Program.cs:115-130 | ranking and then rejecting a stale pick selects the same message as dropping stale messages before ranking |
| Messages.FreshnessOrderIrrelevant | src/FastlaneTwilio2FA/Program.cs:115-136 | the code written is the same as in the design that filters out stale messages first |
| SpaceAuth.Deliver | src/FastlaneTwilio2FA/Program.cs:115-136 | the line one loop iteration writes, given its batch and its `UtcNow` |
| SpaceAuth.GraceErrors | src/FastlaneTwilio2FA/Program.cs:91-94 | after the grace wait "Call to fastlane failed." is written exactly when fastlane has exited with a nonzero code |
| SpaceAuth.ExitAfterGrace | src/FastlaneTwilio2FA/Program.cs:84-96 | `Environment.ExitCode` after the grace wait: fastlane's exit code when it has exited, otherwise unchanged |
| SpaceAuth.FirstSome | src/FastlaneTwilio2FA/Program.cs:99-142 | returns the first index holding a line, with no line before it; None means there is no line anywhere |
| SpaceAuth.Deliveries | src/FastlaneTwilio2FA/Program.cs:99-142 | one entry per poll, each being what that poll would write |
| SpaceAuth.FirstDelivery | src/FastlaneTwilio2FA/Program.cs:99-142 | the first poll that writes a line, with no poll before it writing one; None means no poll writes |
| SpaceAuth.RunSpaceAuthSpec | src/FastlaneTwilio2FA/Program.cs:81-142 | at most one line is written; the run returns exactly when fastlane exited cleanly or some poll writes a code; a written code means exit code 0 |
| SpaceAuth.Polling | src/FastlaneTwilio2FA/Program.cs:99-142 | the loop writes only the grace-wait errors, and returns exactly when some iteration has a line |
| SpaceAuth.PollingSkip | src/FastlaneTwilio2FA/Program.cs:122-133 | an iteration without a line only adds one fetch |
| SpaceAuth.NoDeliveryStep | src/FastlaneTwilio2FA/Program.cs:122-133 | one more poll without a line keeps "no line so far" |
| SpaceAuth.DeliveredAt | src/FastlaneTwilio2FA/Program.cs:135-141 | when poll `k` is the first with a line, the outcome is exit code 0, that line, the grace errors and `k + 1` fetches |
| SpaceAuth.NeverDelivered | src/FastlaneTwilio2FA/Program.cs:84-142 | with no line in any poll, the exit code stays as set after the grace wait, nothing is written, and every poll was fetched |
| SpaceAuth.GraceWaitOutcomes | src/FastlaneTwilio2FA/Program.cs:84-96 | a clean exit gives exit code 0 with no fetch; a failed exit writes "Call to fastlane failed." and keeps its exit code unless a code is written; a running process writes no error |
| SpaceAuth.WrittenLineIsCode | src/FastlaneTwilio2FA/Program.cs:135-138 | the line written to fastlane's standard input is six ASCII digits |
| SpaceAuth.SkipPollWithoutCode | src/FastlaneTwilio2FA/Program.cs:122-133 | a leading poll that writes nothing changes the outcome only by one fetch |
| SpaceAuth.DeliveriesCons | src/FastlaneTwilio2FA/Program.cs:99-142 | a leading poll contributes its own line in front of the rest |
| SpaceAuth.FirstSomeExtend | src/FastlaneTwilio2FA/Program.cs:138-141 | once a line is present, appending entries does not move the first one |
| SpaceAuth.FirstDeliveryExtend | src/FastlaneTwilio2FA/Program.cs:138-141 | once a poll writes a line, later polls do not change which poll is first |
| SpaceAuth.ReturnedIgnoresLaterPolls | src/FastlaneTwilio2FA/Program.cs:84-141 | a run that has returned is unaffected by any further polls |
| SpaceAuth.WrittenLineProvenance | src/FastlaneTwilio2FA/Program.cs:115-141 | the written line is the code of the fresh pick of the last poll; no earlier poll had a fresh pick |
| EnvVars.GetVariable | src/FastlaneTwilio2FA/Program.cs:148-156 | `Environment.GetEnvironmentVariable`: the value of a present variable, null for an absent one |
| EnvVars.DeletesVariable | src/FastlaneTwilio2FA/Program.cs:151 | the values for which `SetEnvironmentVariable` deletes the variable: empty, or starting with NUL |
| EnvVars.TakesArgument | src/FastlaneTwilio2FA/Program.cs:148 | the argument at `index` is used when it exists and the variable is null or white space |
| EnvVars.SetVariable | src/FastlaneTwilio2FA/Program.cs:151 | the variable then holds the value, or is deleted when the value is empty or starts with NUL; every other variable is unchanged |
| EnvVars.Resolve | src/FastlaneTwilio2FA/Program.cs:145-157 | a present argument is returned when the variable is null or white space; otherwise the variable's value is returned and the environment is left alone |
| EnvVars.ResolveFrame | src/FastlaneTwilio2FA/Program.cs:148-156 | afterwards the variable holds the returned value unless that value deleted it; no other variable changes |
| EnvVars.ResolveAgreesWithVariable | src/FastlaneTwilio2FA/Program.cs:148-156 | the returned value and the variable afterwards differ exactly when the argument used deleted the variable |
| EnvVars.ResolveIdempotent | src/FastlaneTwilio2FA/Program.cs:145-157 | resolving the same variable a second time returns the same value and leaves the same environment |
| EnvVars.ResolveLocal | src/FastlaneTwilio2FA/Program.cs:148 | the value returned depends on no variable other than the one named |
| EnvVars.ResolveFrom | src/FastlaneTwilio2FA/Program.cs:24-29 | resolving a list of names appends one value per name to the values already collected, which it keeps in front |
| EnvVars.ResolveParameters | src/FastlaneTwilio2FA/Program.cs:24-29 | the five calls of `Main` in order, argument indexes 0 to 4, one value per variable |
| EnvVars.ResolveFromStep | src/FastlaneTwilio2FA/Program.cs:24-29 | one step of the chain resolves the next name in the environment the previous step left |
| EnvVars.ResolveParametersInSequence | src/FastlaneTwilio2FA/Program.cs:24-29 | five resolutions, each starting from the environment the previous one left, make up the parameter resolution |
| EnvVars.ResolveFromIndependent | src/FastlaneTwilio2FA/Program.cs:24-29 | with distinct names, each value equals resolving its own variable alone in the original environment |
| EnvVars.ResolveFromFrame | src/FastlaneTwilio2FA/Program.cs:24-29 | resolving a list of names changes no variable outside the list |
| EnvVars.ParameterNamesDistinct | src/FastlaneTwilio2FA/Program.cs:24-29 | the five variable names differ |
| EnvVars.ParameterNamesDifferInLength | src/FastlaneTwilio2FA/Program.cs:24-29 | the five variable names have pairwise different lengths, so they stay distinct under case-insensitive comparison |
| EnvVars.AnyMissing | src/FastlaneTwilio2FA/Program.cs:31-32 | `Main`'s guard: some resolved value is null or white space |
| EnvVars.AnyMissingOfFive | src/FastlaneTwilio2FA/Program.cs:31-32 | "some value is missing" is the five-way disjunction of the guard |
| EnvVars.MissingParameterCondition | src/FastlaneTwilio2FA/Program.cs:24-37 | `Main` stops exactly when one variable, resolved on its own against the original environment, is null or white space |
| EnvVars.ParametersPresent | src/FastlaneTwilio2FA/Program.cs:24-37 | five non-blank arguments, or five non-blank variables already set, get past the guard |
| Program.SpaceAuthArguments | src/FastlaneTwilio2FA/Program.cs:72 | fastlane's argument string starts with "spaceauth -u " and continues with the user id, a null id as empty, and nothing else |
| Program.Host.constructor | src/FastlaneTwilio2FA/Program.cs:14-19 | a fresh host: the given environment, exit code 0, nothing written, no parameter set, nothing started |
| Program.Host.EnvironmentVariableMagic | src/FastlaneTwilio2FA/Program.cs:145-157 | the returned value and the new environment are those of `EnvVars.Resolve` |
| Program.Host.RunSpaceAuth | src/FastlaneTwilio2FA/Program.cs:69-143 | the loop's new exit code, appended lines, fetch count and return are those of `SpaceAuth.RunSpaceAuthSpec`; fastlane is started with `SpaceAuthArguments` |
| Program.Host.ReadParameters | src/FastlaneTwilio2FA/Program.cs:24-29 | the five fields and the environment afterwards are those of `EnvVars.ResolveParameters` |
| Program.Host.RunMain | src/FastlaneTwilio2FA/Program.cs:21-44 | parameters as in `ResolveParameters`. A missing one gives exit code -1 and "Missing parameters." with nothing else done. Otherwise Twilio is initialised with the SID and token and the run follows `RunSpaceAuthSpec` |

## Left out

- Talking to Twilio is not modelled: `MessageResource.ReadAsync` and its `dateSentAfter`, `from` and `limit` filters are applied by the provider. Each poll's batch is an input, and whatever the provider returned is what the model filters.
- `TwilioClient.Init` is not modelled beyond recording the credentials it is given.
- Starting the fastlane process is not modelled. Its standard output, and exceptions such as `fastlane` not being found, are left out as well. The process's state after the grace wait (`HasExited`, `ExitCode`) is an input.
- SpaceAuth.RunSpaceAuthSpec: the process is observed once, at line 84, and the loop at lines 99-142 never looks at it again; the model does the same. A write to fastlane's standard input at line 138 therefore always succeeds in the model, with exit code 0 and a return. In the source it raises an I/O error that escapes `Main` whenever fastlane has exited by then: after a nonzero exit during the grace wait, or after an exit of any kind while the loop polls. Lines 140-141 are then not reached. Exceptions are not modelled.
- Fastlane exiting after the grace wait is not modelled: the loop never looks at the process, a clean exit leaves it polling, and a later write at line 138 raises.
- SpaceAuth.GraceWaitOutcomes: its clause "exit code 0 once a code is written" covers a failed exit during the grace wait, where the source's write at line 138 raises instead.
- SpaceAuth.DeliveredAt: gives exit code 0 and a return for the first poll with a code, also when fastlane has exited by then, where the source's write at line 138 raises.
- Program.Host.RunSpaceAuth: is proved equal to `SpaceAuth.RunSpaceAuthSpec`, so it has the same simplification: its write at line 138 always succeeds.
- `Task.Delay` (both the ten-second and the one-second wait) is not modelled. Wall-clock time is left out, and `DateTime.UtcNow` is an input of each poll.
- The `while (true)` loop is driven by a finite sequence of polls. A run whose polls run out before a code appears ends as `StillPolling`, so non-termination is not modelled.
- `JustWriteLastMessage` (lines 46-67) is left out: its only call is commented out.
- Messages.IsMarked: OrdinalIgnoreCase is modelled as ASCII upper-casing. .NET's ordinal ignore-case comparison also folds non-ASCII letters, and that is not modelled.
- Null message fields are not modelled; in the model `Body` and `DateCreated` are always present. In the source, a null `Body` throws at line 117 only on an inbound message (the filter at line 116 drops the others first). A null `DateCreated` does not throw in the sort at line 119, which puts nulls last; it throws at line 129 only when the pick itself has no date.
- Regular expressions are not modelled in general: only the one pattern `[0-9]{6}` is modelled, by its leftmost match. The named group is the whole match.
- Time zones are not modelled: `DateCreated` and `DateTime.UtcNow` are both taken as UTC ticks.
- EnvVars.Resolve: `args[index]?.ToString()` is modelled on a sequence of strings, as `Main` passes them; a null argument is not modelled.
- System-level and user-level environment targets are not modelled. The model has only the process environment that `EnvironmentVariableTarget.Process` updates.
- `Main` is modelled by the method `Program.Host.RunMain`, renamed so that it is not taken as the program's entry point.
- Environment variable names are compared case-sensitively (a `map` from `string`), while on Windows they are case-insensitive. `EnvVars.ResolveLocal`, `EnvVars.ResolveFromIndependent` and `EnvVars.ResolveFromFrame` rely on that for arbitrary names; the five names `Main` uses have different lengths (`EnvVars.ParameterNamesDifferInLength`), so they differ ignoring case too.
