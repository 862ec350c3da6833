/** Resolving the git range from a flag or, failing that, from the environment variables
    that different CI systems fill in. The environment is a map from names to contents. */
module Env {

  /** os.Getenv: the content of a variable, "" when it is not set. */
  function Getenv(env: map<string, string>, name: string): string {
    if name in env then env[name] else ""
  }

  /** Variables naming the last known git reference, in priority order. */
  const GitRangeStartEnvvars: seq<string> := ["ARTIFACT_GIT_RANGE_START", "GIT_PREVIOUS_COMMIT"]

  /** Variables naming the new git reference, in priority order. */
  const GitRangeEndEnvvars: seq<string> := ["ARTIFACT_GIT_RANGE_END", "GIT_COMMIT"]

  /** findValueFromEnv: the content of the first listed variable that has content, and
      whether there was one. A variable that is set but empty counts as absent. */
  function FindValueFromEnv(names: seq<string>, env: map<string, string>): (r: (string, bool))
    ensures r.1 <==> exists i :: 0 <= i < |names| && Getenv(env, names[i]) != ""
    ensures r.1 ==> exists i :: 0 <= i < |names| && r.0 == Getenv(env, names[i]) && r.0 != ""
                      && forall j :: 0 <= j < i ==> Getenv(env, names[j]) == ""
    ensures !r.1 ==> r.0 == ""
  {
    if names == [] then ("", false)
    else if |Getenv(env, names[0])| > 0 then (Getenv(env, names[0]), true)
    else
      var r := FindValueFromEnv(names[1..], env);
      assert forall i :: 0 <= i < |names| - 1 ==> names[1..][i] == names[i + 1];
      r
  }

  /** getGitRangeVal: a non-empty flag wins; otherwise the first environment variable with
      content; otherwise "". */
  function GetGitRangeVal(flag: string, names: seq<string>, env: map<string, string>): (r: string)
    ensures flag != "" ==> r == flag
    ensures flag == "" ==> r == FindValueFromEnv(names, env).0
    ensures r == "" <==> flag == "" && forall name :: name in names ==> Getenv(env, name) == ""
  {
    if |flag| > 0 then flag
    else
      var (val, ok) := FindValueFromEnv(names, env);
      if ok then val else ""
  }
}
