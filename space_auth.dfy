/**
 * The control flow of `RunSpaceAuth` (Program.cs lines 69-143) as a function
 * of the fastlane process's state after the ten-second grace wait and of the
 * sequence of polls the `while (true)` loop performs.
 */
module SpaceAuth {
  import opened Wrappers
  import opened Text
  import opened Messages

  /** What `HasExited` and `ExitCode` report once the grace wait is over. */
  datatype ProcessState = Running | Exited(exitCode: int)

  /** One loop iteration's inputs: the fetched batch and `DateTime.UtcNow` at the freshness check. */
  datatype Poll = Poll(batch: seq<Message>, now: int)

  /** Whether the method returned, or was still inside `while (true)` when the polls ran out. */
  datatype Status = Returned | StillPolling

  /**
   * The observable effect of a run: the final `Environment.ExitCode`, the
   * lines written to fastlane's standard input and to the error stream, and
   * the number of `MessageResource.ReadAsync` calls.
   */
  datatype Outcome = Outcome(exitCode: int, stdin: seq<string>, stderr: seq<string>, fetches: nat, status: Status)

  const FastlaneFailed := "Call to fastlane failed."

  /** The line one iteration writes, if any. */
  function Deliver(p: Poll): Option<string> {
    PollCode(p.batch, p.now)
  }

  /** Index of the first present element. */
  function FirstSome(codes: seq<Option<string>>): (r: Option<nat>)
    ensures r.Some? ==> r.value < |codes| && codes[r.value].Some?
    ensures r.Some? ==> forall j | 0 <= j < r.value :: codes[j].None?
    ensures r.None? ==> forall j | 0 <= j < |codes| :: codes[j].None?
  {
    if codes == [] then None
    else if codes[0].Some? then Some(0)
    else
      match FirstSome(codes[1..])
      case Some(k) => Some(k + 1)
      case None => None
  }

  /** The line each iteration would write, poll by poll. */
  function Deliveries(polls: seq<Poll>): (codes: seq<Option<string>>)
    ensures |codes| == |polls|
    ensures forall j | 0 <= j < |polls| :: codes[j] == Deliver(polls[j])
  {
    if polls == [] then [] else [Deliver(polls[0])] + Deliveries(polls[1..])
  }

  /** The first iteration that writes a line. */
  function FirstDelivery(polls: seq<Poll>): (r: Option<nat>)
    ensures r.Some? ==> r.value < |polls| && Deliver(polls[r.value]).Some?
    ensures r.Some? ==> forall j | 0 <= j < r.value :: Deliver(polls[j]).None?
    ensures r.None? ==> forall j | 0 <= j < |polls| :: Deliver(polls[j]).None?
  {
    FirstSome(Deliveries(polls))
  }

  /**
   * `RunSpaceAuth` started with `exitCode` as `Environment.ExitCode`: a clean
   * exit during the grace wait returns at once; a failed exit reports the
   * failure, takes the process's exit code and still falls through into the
   * polling loop, which returns after writing the first code it finds.
   */
  function RunSpaceAuthSpec(exitCode: int, process: ProcessState, polls: seq<Poll>): (o: Outcome)
    ensures |o.stdin| <= 1
    ensures o.status == Returned <==> process == Exited(0) || FirstDelivery(polls).Some?
    ensures o.stdin != [] ==> o.exitCode == 0 && o.status == Returned
  {
    if process == Exited(0) then Outcome(0, [], [], 0, Returned)
    else
      Polling(ExitAfterGrace(exitCode, process), GraceErrors(process), Deliveries(polls))
  }

  /**
   * The `while (true)` loop over the lines its iterations would write: it
   * returns after the first one, and otherwise has fetched once per iteration.
   */
  function Polling(exit: int, errors: seq<string>, codes: seq<Option<string>>): (o: Outcome)
    ensures o.stderr == errors
    ensures o.status == Returned <==> FirstSome(codes).Some?
  {
    match FirstSome(codes)
    case None => Outcome(exit, [], errors, |codes|, StillPolling)
    case Some(k) => Outcome(0, [codes[k].value], errors, k + 1, Returned)
  }

  /** An iteration that writes nothing only adds one fetch. */
  lemma PollingSkip(exit: int, errors: seq<string>, c: Option<string>, codes: seq<Option<string>>)
    requires c.None?
    ensures
      var o := Polling(exit, errors, codes);
      Polling(exit, errors, [c] + codes) == o.(fetches := o.fetches + 1)
  {
    var all := [c] + codes;
    assert all[1..] == codes;
    if FirstSome(codes).Some? {
      assert all[FirstSome(codes).value + 1] == codes[FirstSome(codes).value];
    }
  }

  /** The errors written once the grace wait is over (lines 91-94). */
  function GraceErrors(process: ProcessState): seq<string> {
    if process.Exited? && process.exitCode != 0 then [FastlaneFailed] else []
  }

  /** `Environment.ExitCode` once the grace wait is over: fastlane's code if it has exited (lines 84-94). */
  function ExitAfterGrace(exitCode: int, process: ProcessState): int {
    if process.Exited? then process.exitCode else exitCode
  }

  /** No poll before `k` writes a line. */
  predicate NoDeliveryBefore(polls: seq<Poll>, k: nat)
    requires k <= |polls|
  {
    forall j | 0 <= j < k :: Deliver(polls[j]).None?
  }

  /** One more poll without a line keeps `NoDeliveryBefore`. */
  lemma NoDeliveryStep(polls: seq<Poll>, k: nat)
    requires k < |polls| && NoDeliveryBefore(polls, k) && Deliver(polls[k]).None?
    ensures NoDeliveryBefore(polls, k + 1)
  {
  }

  /** The polling loop's outcome when poll `k` is the first to write a line. */
  lemma DeliveredAt(exitCode: int, process: ProcessState, polls: seq<Poll>, k: nat)
    requires process != Exited(0)
    requires k < |polls| && Deliver(polls[k]).Some?
    requires NoDeliveryBefore(polls, k)
    ensures RunSpaceAuthSpec(exitCode, process, polls) ==
      Outcome(0, [Deliver(polls[k]).value], GraceErrors(process), k + 1, Returned)
  {
    assert FirstDelivery(polls) == Some(k);
  }

  /** The polling loop's outcome when no poll writes a line. */
  lemma NeverDelivered(exitCode: int, process: ProcessState, polls: seq<Poll>)
    requires process != Exited(0)
    requires NoDeliveryBefore(polls, |polls|)
    ensures RunSpaceAuthSpec(exitCode, process, polls) ==
      Outcome(ExitAfterGrace(exitCode, process), [], GraceErrors(process), |polls|, StillPolling)
  {
  }

  /** The line written to fastlane's standard input is six ASCII digits. */
  lemma WrittenLineIsCode(exitCode: int, process: ProcessState, polls: seq<Poll>)
    ensures
      var o := RunSpaceAuthSpec(exitCode, process, polls);
      o.stdin != [] ==> |o.stdin[0]| == CodeLength && forall j | 0 <= j < CodeLength :: IsAsciiDigit(o.stdin[0][j])
  {
    if process != Exited(0) && FirstDelivery(polls).Some? {
      var k := FirstDelivery(polls).value;
      PollCodeDigits(polls[k].batch, polls[k].now);
    }
  }

  /**
   * After the grace wait: a clean exit means exit code 0 with no fetch and no
   * write; a failed exit with code `n` reports the failure and keeps `n` as
   * the exit code for as long as no code is written.
   */
  lemma GraceWaitOutcomes(exitCode: int, process: ProcessState, polls: seq<Poll>)
    ensures process == Exited(0) ==> RunSpaceAuthSpec(exitCode, process, polls) == Outcome(0, [], [], 0, Returned)
    ensures process.Exited? && process.exitCode != 0 ==>
      var o := RunSpaceAuthSpec(exitCode, process, polls);
      && o.stderr == [FastlaneFailed]
      && o.fetches == (if FirstDelivery(polls).Some? then FirstDelivery(polls).value + 1 else |polls|)
      && o.exitCode == (if o.stdin == [] then process.exitCode else 0)
    ensures process == Running ==>
      var o := RunSpaceAuthSpec(exitCode, process, polls);
      o.stderr == [] && o.exitCode == (if o.stdin == [] then exitCode else 0)
  {
  }

  /** A poll that finds nothing to write changes nothing but the fetch count. */
  lemma SkipPollWithoutCode(exitCode: int, process: ProcessState, p: Poll, rest: seq<Poll>)
    requires process != Exited(0)
    requires Deliver(p).None?
    ensures
      var o := RunSpaceAuthSpec(exitCode, process, rest);
      RunSpaceAuthSpec(exitCode, process, [p] + rest) == o.(fetches := o.fetches + 1)
  {
    DeliveriesCons(p, rest);
    PollingSkip(ExitAfterGrace(exitCode, process), GraceErrors(process), Deliver(p), Deliveries(rest));
  }

  /** The lines of a leading poll and of the rest. */
  lemma DeliveriesCons(p: Poll, rest: seq<Poll>)
    ensures Deliveries([p] + rest) == [Deliver(p)] + Deliveries(rest)
  {
    assert ([p] + rest)[1..] == rest;
  }

  /** A sequence with a present element keeps its first one when extended. */
  lemma {:induction false} FirstSomeExtend(codes: seq<Option<string>>, more: seq<Option<string>>)
    requires FirstSome(codes).Some?
    ensures FirstSome(codes + more) == FirstSome(codes)
  {
    if codes[0].None? {
      assert (codes + more)[1..] == codes[1..] + more;
      FirstSomeExtend(codes[1..], more);
    }
  }

  /** Once a code is found, later polls do not matter. */
  lemma FirstDeliveryExtend(polls: seq<Poll>, more: seq<Poll>)
    requires FirstDelivery(polls).Some?
    ensures FirstDelivery(polls + more) == FirstDelivery(polls)
  {
    var all := polls + more;
    assert Deliveries(all) == Deliveries(polls) + Deliveries(more) by {
      forall j | 0 <= j < |all| ensures Deliveries(all)[j] == (Deliveries(polls) + Deliveries(more))[j] {
        if j < |polls| { assert all[j] == polls[j]; } else { assert all[j] == more[j - |polls|]; }
      }
    }
    FirstSomeExtend(Deliveries(polls), Deliveries(more));
  }

  /** A run that has returned is unaffected by any further polls. */
  lemma ReturnedIgnoresLaterPolls(exitCode: int, process: ProcessState, polls: seq<Poll>, more: seq<Poll>)
    requires RunSpaceAuthSpec(exitCode, process, polls).status == Returned
    ensures RunSpaceAuthSpec(exitCode, process, polls + more) == RunSpaceAuthSpec(exitCode, process, polls)
  {
    if process != Exited(0) {
      FirstDeliveryExtend(polls, more);
      var k := FirstDelivery(polls).value;
      assert (polls + more)[k] == polls[k];
    }
  }

  /**
   * The one line ever written is the code of the message the pipeline picked
   * in the last poll performed, that message was fresh, and no earlier poll
   * had a fresh pick.
   */
  lemma WrittenLineProvenance(exitCode: int, process: ProcessState, polls: seq<Poll>)
    requires RunSpaceAuthSpec(exitCode, process, polls).stdin != []
    ensures
      var o := RunSpaceAuthSpec(exitCode, process, polls);
      var k := o.fetches - 1;
      && 0 <= k < |polls|
      && (exists i: nat ::
            && ChosenAt(polls[k].batch, i)
            && !IsStale(polls[k].batch[i], polls[k].now)
            && o.stdin == [CodeMatch(polls[k].batch[i].body)])
      && forall j | 0 <= j < k :: !exists i: nat :: ChosenAt(polls[j].batch, i) && !IsStale(polls[j].batch[i], polls[j].now)
  {
    var k := FirstDelivery(polls).value;
    PollCodeSpec(polls[k].batch, polls[k].now);
    forall j | 0 <= j < k
      ensures !exists i: nat :: ChosenAt(polls[j].batch, i) && !IsStale(polls[j].batch[i], polls[j].now)
    {
      PollCodeSpec(polls[j].batch, polls[j].now);
    }
  }
}
