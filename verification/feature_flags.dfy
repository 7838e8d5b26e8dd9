/** Boolean feature flags read from the environment
    (api/custom/feature_flags.py). The process environment is a map
    argument. */
module FeatureFlags {
  import opened Text

  /** The spellings that read as true, after lower-casing. */
  const TruthyValues: set<string> := {"true", "1", "yes", "on"}

  /** Python's `str(b).lower()` for a bool. */
  function BoolText(b: bool): string {
    if b then "true" else "false"
  }

  /** `_get_bool_env(key, default)`: the variable's value, or the default's
      text when unset, lower-cased and compared with the truthy spellings.
      Nothing is trimmed. */
  function GetBoolEnv(env: map<string, string>, key: string, default: bool): (b: bool)
    ensures key !in env ==> b == default
    ensures key in env ==> (b <==> Lower(env[key]) in TruthyValues)
  {
    var value := if key in env then env[key] else BoolText(default);
    LowerOfLower("true");
    LowerOfLower("false");
    Lower(value) in TruthyValues
  }

  /** `DIFY_CUSTOM_TRACE_SEARCH_ENABLED`, on unless the environment says
      otherwise. */
  function TraceSearchEnabled(env: map<string, string>): (b: bool)
    ensures "DIFY_CUSTOM_TRACE_SEARCH_ENABLED" !in env ==> b
  {
    GetBoolEnv(env, "DIFY_CUSTOM_TRACE_SEARCH_ENABLED", true)
  }

  /** Matching ignores ASCII case, whatever the default. */
  lemma TruthyExamples(key: string, default: bool)
    ensures GetBoolEnv(map[key := "TRUE"], key, default)
    ensures GetBoolEnv(map[key := "Yes"], key, default)
    ensures GetBoolEnv(map[key := "On"], key, default)
  {
    assert Lower("TRUE") == "true";
    assert Lower("Yes") == "yes";
    assert Lower("On") == "on";
  }

  /** Anything outside the four spellings is false, whatever the default,
      including the empty string and a value with a leading space. */
  lemma FalsyExamples(key: string, default: bool)
    ensures !GetBoolEnv(map[key := ""], key, default)
    ensures !GetBoolEnv(map[key := "false"], key, default)
    ensures !GetBoolEnv(map[key := "0"], key, default)
    ensures !GetBoolEnv(map[key := " true"], key, default)
  {
    LowerOfLower(" true");
    assert " true" !in TruthyValues by { assert |" true"| == 5; }
    LowerOfLower("false");
    assert "false" !in TruthyValues by { assert |"false"| == 5; }
    LowerOfLower("0");
    assert "0" !in TruthyValues by { assert "0"[0] != "1"[0]; }
    assert Lower("") == "";
  }

  /** Two values that agree up to ASCII case parse alike. */
  lemma CaseInsensitive(key: string, v: string, w: string, default: bool)
    requires Lower(v) == Lower(w)
    ensures GetBoolEnv(map[key := v], key, default) == GetBoolEnv(map[key := w], key, default)
  {
  }
}
