/**
 * The `Program` class of Program.cs: the process environment, the static
 * parameter fields and `Environment.ExitCode` as the fields of one host
 * object, and `Main`, `RunSpaceAuth` and `EnvironmentVariableMagic` as methods
 * that update them in place.
 */
module Program {
  import opened Wrappers
  import opened Text
  import opened Messages
  import opened SpaceAuth
  import opened EnvVars

  const MissingParameters := "Missing parameters."

  /** `$"spaceauth -u {AppleUserId}"`: a null user interpolates as the empty string. */
  function SpaceAuthArguments(user: Option<string>): (args: string)
    ensures |args| == 13 + |user.GetOr("")|
    ensures args[..13] == "spaceauth -u "
    ensures args[13..] == user.GetOr("")
  {
    "spaceauth -u " + user.GetOr("")
  }

  class Host {
    /** The process environment. */
    var env: Environment
    /** `Environment.ExitCode`. */
    var exitCode: int
    /** Lines written to fastlane's standard input. */
    var stdin: seq<string>
    /** Lines written to the error stream. */
    var stderr: seq<string>
    /** Calls made to `MessageResource.ReadAsync`. */
    var fetches: nat

    var appleUserId: Option<string>
    var applePassword: Option<string>
    var phoneNumber: Option<string>
    var twilioAccountSid: Option<string>
    var twilioAuthToken: Option<string>

    /** The account SID and token passed to `TwilioClient.Init`, once it is called. */
    var twilioCredentials: Option<(string, string)>
    /** The arguments fastlane was started with, once `Process.Start` is called. */
    var fastlaneArguments: Option<string>

    /** A fresh process: the given environment, exit code 0, nothing written, nothing started. */
    constructor (env: Environment)
      ensures this.env == env && exitCode == 0
      ensures stdin == [] && stderr == [] && fetches == 0
      ensures appleUserId == None && applePassword == None && phoneNumber == None
      ensures twilioAccountSid == None && twilioAuthToken == None
      ensures twilioCredentials == None && fastlaneArguments == None
    {
      this.env := env;
      exitCode := 0;
      stdin, stderr, fetches := [], [], 0;
      appleUserId, applePassword, phoneNumber := None, None, None;
      twilioAccountSid, twilioAuthToken := None, None;
      twilioCredentials, fastlaneArguments := None, None;
    }

    /** Program.cs lines 145-157; only the environment changes. */
    method EnvironmentVariableMagic(name: string, args: seq<string>, index: nat) returns (value: Option<string>)
      modifies this`env
      ensures value == Resolve(old(env), name, args, index).value
      ensures env == Resolve(old(env), name, args, index).env
    {
      if |args| > index && IsNullOrWhiteSpace(GetVariable(env, name)) {
        value := Some(args[index]);
        env := SetVariable(env, name, args[index]);
      } else {
        value := GetVariable(env, name);
      }
    }

    /**
     * Program.cs lines 69-143, from `Process.Start` on. `process` is what
     * fastlane reports after the grace wait and `polls` drives the loop;
     * `returned` is false when the polls ran out before the loop returned.
     */
    method RunSpaceAuth(process: ProcessState, polls: seq<Poll>) returns (returned: bool)
      modifies this`exitCode, this`stdin, this`stderr, this`fetches, this`fastlaneArguments
      ensures fastlaneArguments == Some(SpaceAuthArguments(appleUserId))
      ensures
        var o := RunSpaceAuthSpec(old(exitCode), process, polls);
        && exitCode == o.exitCode
        && stdin == old(stdin) + o.stdin
        && stderr == old(stderr) + o.stderr
        && fetches == old(fetches) + o.fetches
        && returned == (o.status == Returned)
    {
      fastlaneArguments := Some(SpaceAuthArguments(appleUserId));
      if process.Exited? {
        if process.exitCode == 0 {
          exitCode := 0;
          return true;
        } else {
          stderr := stderr + [FastlaneFailed];
          exitCode := process.exitCode;
        }
      }
      ghost var exit := exitCode;
      var i := 0;
      while i < |polls|
        invariant 0 <= i <= |polls|
        invariant NoDeliveryBefore(polls, i)
        invariant exit == ExitAfterGrace(old(exitCode), process)
        invariant exitCode == exit && stdin == old(stdin) && fetches == old(fetches) + i
        invariant process != Exited(0) && stderr == old(stderr) + GraceErrors(process)
        invariant fastlaneArguments == Some(SpaceAuthArguments(appleUserId))
      {
        var poll := polls[i];
        fetches := fetches + 1;
        var mostRecentMessage := Select(poll.batch);
        if mostRecentMessage.None? {
          NoDeliveryStep(polls, i);
          i := i + 1;
          continue;
        }
        if mostRecentMessage.value.dateCreated < poll.now - FreshnessWindow {
          NoDeliveryStep(polls, i);
          i := i + 1;
          continue;
        }
        if IsNullOrWhiteSpace(Some(mostRecentMessage.value.body)) {
          NoDeliveryStep(polls, i);
          i := i + 1;
          continue;
        }
        var code := CodeMatch(mostRecentMessage.value.body);
        stdin := stdin + [code];
        exitCode := 0;
        assert Deliver(poll) == Some(code);
        DeliveredAt(old(exitCode), process, polls, i);
        return true;
      }
      NeverDelivered(old(exitCode), process, polls);
      return false;
    }

    /** Program.cs lines 24-29: the five parameters, each from its variable or its argument. */
    method ReadParameters(args: seq<string>)
      modifies this`env, this`appleUserId, this`applePassword, this`phoneNumber
      modifies this`twilioAccountSid, this`twilioAuthToken
      ensures
        var p := ResolveParameters(old(env), args);
        && env == p.env
        && [appleUserId, applePassword, phoneNumber, twilioAccountSid, twilioAuthToken] == p.values
    {
      ghost var e0 := env;
      appleUserId := EnvironmentVariableMagic(ParameterNames[0], args, 0);
      ghost var e1 := env;
      applePassword := EnvironmentVariableMagic(ParameterNames[1], args, 1);
      ghost var e2 := env;
      phoneNumber := EnvironmentVariableMagic(ParameterNames[2], args, 2);
      ghost var e3 := env;
      twilioAccountSid := EnvironmentVariableMagic(ParameterNames[3], args, 3);
      ghost var e4 := env;
      twilioAuthToken := EnvironmentVariableMagic(ParameterNames[4], args, 4);
      ResolveParametersInSequence(ParameterNames, e0, args,
        Resolution(appleUserId, e1), Resolution(applePassword, e2), Resolution(phoneNumber, e3),
        Resolution(twilioAccountSid, e4), Resolution(twilioAuthToken, env));
    }

    /**
     * Program.cs lines 21-44 (`Main`): resolve the five parameters, stop with
     * exit code -1 when one is missing, otherwise initialise the Twilio client
     * and run fastlane.
     */
    method RunMain(args: seq<string>, process: ProcessState, polls: seq<Poll>) returns (returned: bool)
      modifies this
      ensures
        var p := ResolveParameters(old(env), args);
        && env == p.env
        && [appleUserId, applePassword, phoneNumber, twilioAccountSid, twilioAuthToken] == p.values
      ensures
        AnyMissing([appleUserId, applePassword, phoneNumber, twilioAccountSid, twilioAuthToken]) ==>
          && exitCode == -1
          && stderr == old(stderr) + [MissingParameters]
          && stdin == old(stdin) && fetches == old(fetches)
          && twilioCredentials == old(twilioCredentials)
          && fastlaneArguments == old(fastlaneArguments)
          && returned
      ensures
        var o := RunSpaceAuthSpec(old(exitCode), process, polls);
        !AnyMissing([appleUserId, applePassword, phoneNumber, twilioAccountSid, twilioAuthToken]) ==>
          && twilioAccountSid.Some? && twilioAuthToken.Some?
          && twilioCredentials == Some((twilioAccountSid.value, twilioAuthToken.value))
          && fastlaneArguments == Some(SpaceAuthArguments(appleUserId))
          && exitCode == o.exitCode
          && stdin == old(stdin) + o.stdin
          && stderr == old(stderr) + o.stderr
          && fetches == old(fetches) + o.fetches
          && returned == (o.status == Returned)
    {
      ReadParameters(args);
      ghost var values := [appleUserId, applePassword, phoneNumber, twilioAccountSid, twilioAuthToken];
      AnyMissingOfFive(appleUserId, applePassword, phoneNumber, twilioAccountSid, twilioAuthToken);

      var missing := IsNullOrWhiteSpace(appleUserId) || IsNullOrWhiteSpace(applePassword) || IsNullOrWhiteSpace(phoneNumber)
        || IsNullOrWhiteSpace(twilioAccountSid) || IsNullOrWhiteSpace(twilioAuthToken);
      assert missing == AnyMissing(values);
      if missing {
        stderr := stderr + [MissingParameters];
        exitCode := -1;
        return true;
      }

      twilioCredentials := Some((twilioAccountSid.value, twilioAuthToken.value));
      returned := RunSpaceAuth(process, polls);
    }
  }
}
