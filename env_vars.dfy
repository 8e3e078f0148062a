/**
 * `EnvironmentVariableMagic` (Program.cs lines 145-157) and the parameter
 * resolution of `Main` (lines 24-29), as functions over the process
 * environment. The environment maps a name to its value; an absent name reads
 * as null.
 */
module EnvVars {
  import opened Wrappers
  import opened Text

  type Environment = map<string, string>

  /** `Environment.GetEnvironmentVariable`. */
  function GetVariable(env: Environment, name: string): Option<string> {
    if name in env then Some(env[name]) else None
  }

  /**
   * A value that `Environment.SetEnvironmentVariable` treats as a request to
   * delete the variable: empty, or starting with a NUL character.
   */
  predicate DeletesVariable(value: string) {
    value == "" || value[0] == '\0'
  }

  /** `Environment.SetEnvironmentVariable(name, value, EnvironmentVariableTarget.Process)`. */
  function SetVariable(env: Environment, name: string, value: string): (env': Environment)
    ensures GetVariable(env', name) == if DeletesVariable(value) then None else Some(value)
    ensures forall n | n != name :: GetVariable(env', n) == GetVariable(env, n)
  {
    if DeletesVariable(value) then env - {name} else env[name := value]
  }

  /** A returned value and the environment afterwards. */
  datatype Resolution = Resolution(value: Option<string>, env: Environment)

  /** The argument at `index` is used when it exists and the variable is null or white space. */
  predicate TakesArgument(env: Environment, name: string, args: seq<string>, index: nat) {
    |args| > index && IsNullOrWhiteSpace(GetVariable(env, name))
  }

  /**
   * `EnvironmentVariableMagic(name, args, index)`: a present argument replaces
   * a null or blank variable and is returned; otherwise the variable's current
   * value is returned and the environment is left alone.
   */
  function Resolve(env: Environment, name: string, args: seq<string>, index: nat): (r: Resolution)
    ensures TakesArgument(env, name, args, index) ==> r.value == Some(args[index])
    ensures !TakesArgument(env, name, args, index) ==> r.value == GetVariable(env, name) && r.env == env
  {
    if TakesArgument(env, name, args, index) then
      var value := args[index];
      Resolution(Some(value), SetVariable(env, name, value))
    else
      Resolution(GetVariable(env, name), env)
  }

  /**
   * Afterwards the variable holds the returned value unless that value
   * deleted it, and no other variable has changed.
   */
  lemma ResolveFrame(env: Environment, name: string, args: seq<string>, index: nat)
    ensures
      var r := Resolve(env, name, args, index);
      r.value.Some? && !DeletesVariable(r.value.value) ==> GetVariable(r.env, name) == r.value
    ensures
      var r := Resolve(env, name, args, index);
      forall n | n != name :: GetVariable(r.env, n) == GetVariable(env, n)
  {
  }

  /**
   * The returned value and the variable afterwards disagree only when the
   * argument deleted the variable.
   */
  lemma ResolveAgreesWithVariable(env: Environment, name: string, args: seq<string>, index: nat)
    ensures
      var r := Resolve(env, name, args, index);
      GetVariable(r.env, name) == r.value <==> !(TakesArgument(env, name, args, index) && DeletesVariable(args[index]))
  {
  }

  /** Resolving the same variable twice gives the same value and environment as resolving it once. */
  lemma ResolveIdempotent(env: Environment, name: string, args: seq<string>, index: nat)
    ensures
      var r := Resolve(env, name, args, index);
      Resolve(r.env, name, args, index) == r
  {
    var r := Resolve(env, name, args, index);
    if TakesArgument(env, name, args, index) {
      var v := args[index];
      if DeletesVariable(v) || IsNullOrWhiteSpace(Some(v)) {
        assert TakesArgument(r.env, name, args, index);
        assert SetVariable(r.env, name, v) == r.env;
      } else {
        assert !TakesArgument(r.env, name, args, index);
      }
    }
  }

  /** Resolving a variable depends on no other variable. */
  lemma ResolveLocal(env1: Environment, env2: Environment, name: string, args: seq<string>, index: nat)
    requires GetVariable(env1, name) == GetVariable(env2, name)
    ensures Resolve(env1, name, args, index).value == Resolve(env2, name, args, index).value
  {
  }

  const FastlaneUser := "FASTLANE_USER"
  const FastlanePassword := "FASTLANE_PASSWORD"
  const PhoneNumber := "SPACESHIP_2FA_SMS_DEFAULT_PHONE_NUMBER"
  const TwilioAccountSid := "2FA_TWILIO_ACCOUNT_SID"
  const TwilioAuthToken := "2FA_TWILIO_AUTH_TOKEN"

  /** The five variables `Main` resolves; the position of each is its argument index. */
  const ParameterNames: seq<string> := [FastlaneUser, FastlanePassword, PhoneNumber, TwilioAccountSid, TwilioAuthToken]

  /** Resolved values and the environment afterwards. */
  datatype Parameters = Parameters(values: seq<Option<string>>, env: Environment)

  /**
   * Resolves `names[k..]` in order, the name at position `i` with argument
   * index `i`, each call seeing the environment the previous one left; the
   * values are appended to `acc`.
   */
  function ResolveFrom(env: Environment, names: seq<string>, args: seq<string>, k: nat, acc: seq<Option<string>>): (p: Parameters)
    requires k <= |names|
    ensures |p.values| == |acc| + |names| - k
    ensures p.values[..|acc|] == acc
    decreases |names| - k
  {
    if k == |names| then Parameters(acc, env)
    else
      var r := Resolve(env, names[k], args, k);
      ResolveFrom(r.env, names, args, k + 1, acc + [r.value])
  }

  /** Lines 24-29: the five calls of `Main`. */
  function ResolveParameters(env: Environment, args: seq<string>): (p: Parameters)
    ensures |p.values| == |ParameterNames|
  {
    ResolveFrom(env, ParameterNames, args, 0, [])
  }

  /**
   * Five resolutions, each started from the environment the previous one
   * left, make up `ResolveFrom` of five names (and so `ResolveParameters`).
   */
  lemma ResolveParametersInSequence(names: seq<string>, env: Environment, args: seq<string>,
                       r0: Resolution, r1: Resolution, r2: Resolution, r3: Resolution, r4: Resolution)
    requires |names| == 5
    requires r0 == Resolve(env, names[0], args, 0)
    requires r1 == Resolve(r0.env, names[1], args, 1)
    requires r2 == Resolve(r1.env, names[2], args, 2)
    requires r3 == Resolve(r2.env, names[3], args, 3)
    requires r4 == Resolve(r3.env, names[4], args, 4)
    ensures ResolveFrom(env, names, args, 0, []) == Parameters([r0.value, r1.value, r2.value, r3.value, r4.value], r4.env)
  {
    var a0: seq<Option<string>> := [];
    ResolveFromStep(env, names, args, 0, a0, r0);
    ResolveFromStep(r0.env, names, args, 1, a0 + [r0.value], r1);
    ResolveFromStep(r1.env, names, args, 2, a0 + [r0.value] + [r1.value], r2);
    ResolveFromStep(r2.env, names, args, 3, a0 + [r0.value] + [r1.value] + [r2.value], r3);
    ResolveFromStep(r3.env, names, args, 4, a0 + [r0.value] + [r1.value] + [r2.value] + [r3.value], r4);
    assert a0 + [r0.value] + [r1.value] + [r2.value] + [r3.value] + [r4.value] == [r0.value, r1.value, r2.value, r3.value, r4.value];
  }

  /** One step of `ResolveFrom`: resolving the name at `k` moves it to the accumulated values. */
  lemma ResolveFromStep(env: Environment, names: seq<string>, args: seq<string>, k: nat, acc: seq<Option<string>>, r: Resolution)
    requires k < |names| && r == Resolve(env, names[k], args, k)
    ensures ResolveFrom(env, names, args, k, acc) == ResolveFrom(r.env, names, args, k + 1, acc + [r.value])
  {
  }

  /** No name occurs twice. */
  predicate Distinct(names: seq<string>) {
    forall i, j | 0 <= i < j < |names| :: names[i] != names[j]
  }

  /**
   * With distinct names, each resolved value is what resolving that variable
   * alone in the original environment returns.
   */
  lemma {:induction false} ResolveFromIndependent(env: Environment, names: seq<string>, args: seq<string>, k: nat, acc: seq<Option<string>>)
    requires Distinct(names) && k <= |names|
    ensures
      var p := ResolveFrom(env, names, args, k, acc);
      forall i | k <= i < |names| :: p.values[|acc| + i - k] == Resolve(env, names[i], args, i).value
    decreases |names| - k
  {
    if k < |names| {
      var r := Resolve(env, names[k], args, k);
      var acc' := acc + [r.value];
      var p := ResolveFrom(env, names, args, k, acc);
      ResolveFromStep(env, names, args, k, acc, r);
      ResolveFrame(env, names[k], args, k);
      ResolveFromIndependent(r.env, names, args, k + 1, acc');
      forall i | k < i < |names| ensures p.values[|acc| + i - k] == Resolve(env, names[i], args, i).value {
        ResolveLocal(r.env, env, names[i], args, i);
        assert |acc'| + i - (k + 1) == |acc| + i - k;
      }
      assert p.values[..|acc'|] == acc';
      assert p.values[|acc|] == acc'[|acc|];
    }
  }

  /** Resolving `names[k..]` changes no variable outside them. */
  lemma {:induction false} ResolveFromFrame(env: Environment, names: seq<string>, args: seq<string>, k: nat, acc: seq<Option<string>>)
    requires k <= |names|
    ensures
      var p := ResolveFrom(env, names, args, k, acc);
      forall n | n !in names[k..] :: GetVariable(p.env, n) == GetVariable(env, n)
    decreases |names| - k
  {
    if k < |names| {
      var r := Resolve(env, names[k], args, k);
      var p := ResolveFrom(env, names, args, k, acc);
      ResolveFromStep(env, names, args, k, acc, r);
      ResolveFrame(env, names[k], args, k);
      ResolveFromFrame(r.env, names, args, k + 1, acc + [r.value]);
      forall n | n !in names[k..] ensures GetVariable(p.env, n) == GetVariable(env, n) {
        assert names[k] in names[k..];
        assert forall m | m in names[k + 1..] :: m in names[k..];
      }
    }
  }

  /** The five variable names differ from each other. */
  lemma ParameterNamesDistinct()
    ensures Distinct(ParameterNames)
  {
    var names := ParameterNames;
    assert |names[0]| == 13 && |names[1]| == 17 && |names[2]| == 38 && |names[3]| == 22 && |names[4]| == 21;
  }

  /**
   * The five variable names have different lengths, so they differ even
   * where variable names are compared ignoring case.
   */
  lemma ParameterNamesDifferInLength()
    ensures forall i, j | 0 <= i < j < |ParameterNames| :: |ParameterNames[i]| != |ParameterNames[j]|
  {
    var names := ParameterNames;
    assert |names[0]| == 13 && |names[1]| == 17 && |names[2]| == 38 && |names[3]| == 22 && |names[4]| == 21;
  }

  /** `Main`'s guard at lines 31-32: one of the resolved values is null or white space. */
  predicate AnyMissing(values: seq<Option<string>>) {
    exists i | 0 <= i < |values| :: IsNullOrWhiteSpace(values[i])
  }

  /** `AnyMissing` of five values is the disjunction `Main` writes out. */
  lemma AnyMissingOfFive(a: Option<string>, b: Option<string>, c: Option<string>, d: Option<string>, e: Option<string>)
    ensures AnyMissing([a, b, c, d, e]) <==>
      IsNullOrWhiteSpace(a) || IsNullOrWhiteSpace(b) || IsNullOrWhiteSpace(c) || IsNullOrWhiteSpace(d) || IsNullOrWhiteSpace(e)
  {
    var s := [a, b, c, d, e];
    if IsNullOrWhiteSpace(a) { assert IsNullOrWhiteSpace(s[0]); }
    if IsNullOrWhiteSpace(b) { assert IsNullOrWhiteSpace(s[1]); }
    if IsNullOrWhiteSpace(c) { assert IsNullOrWhiteSpace(s[2]); }
    if IsNullOrWhiteSpace(d) { assert IsNullOrWhiteSpace(s[3]); }
    if IsNullOrWhiteSpace(e) { assert IsNullOrWhiteSpace(s[4]); }
  }

  /**
   * `Main` stops exactly when one of the five variables, resolved on its own
   * against the original environment, is null or white space.
   */
  lemma MissingParameterCondition(env: Environment, args: seq<string>)
    ensures AnyMissing(ResolveParameters(env, args).values) <==>
      exists i | 0 <= i < |ParameterNames| :: IsNullOrWhiteSpace(Resolve(env, ParameterNames[i], args, i).value)
  {
    ParameterNamesDistinct();
    var none: seq<Option<string>> := [];
    ResolveFromIndependent(env, ParameterNames, args, 0, none);
    var values := ResolveParameters(env, args).values;
    assert |values| == |ParameterNames|;
    forall i | 0 <= i < |ParameterNames| ensures values[i] == Resolve(env, ParameterNames[i], args, i).value {
      assert values[|none| + i - 0] == Resolve(env, ParameterNames[i], args, i).value;
    }
  }

  /**
   * Five non-blank arguments, or five non-blank variables already set, are
   * enough for `Main` to go on.
   */
  lemma ParametersPresent(env: Environment, args: seq<string>)
    requires
      || (|args| >= |ParameterNames| && forall i | 0 <= i < |ParameterNames| :: !IsNullOrWhiteSpace(Some(args[i])))
      || (forall i | 0 <= i < |ParameterNames| :: !IsNullOrWhiteSpace(GetVariable(env, ParameterNames[i])))
    ensures !AnyMissing(ResolveParameters(env, args).values)
  {
    MissingParameterCondition(env, args);
    forall i | 0 <= i < |ParameterNames|
      ensures !IsNullOrWhiteSpace(Resolve(env, ParameterNames[i], args, i).value)
    {
    }
  }
}
