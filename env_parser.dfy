/**
 * Reading configuration overrides from the environment
 * (`src/config/env_parser.rs`). The environment is a map from variable
 * names to values; the `apply_*_override` steps, which write into a
 * configuration, are methods of `Configuration.Config` and are specified by
 * the `Override*` functions here.
 */
module EnvParser {
  import opened Wrappers
  import Text
  import Floats
  import ConfigPaths
  import opened ConfigValidation

  const DATABASE_PATH_VAR: string := "VIPUNE_DATABASE_PATH"
  const EMBEDDING_MODEL_VAR: string := "VIPUNE_EMBEDDING_MODEL"
  const MODEL_CACHE_VAR: string := "VIPUNE_MODEL_CACHE"
  const SIMILARITY_THRESHOLD_VAR: string := "VIPUNE_SIMILARITY_THRESHOLD"
  const RECENCY_WEIGHT_VAR: string := "VIPUNE_RECENCY_WEIGHT"

  /** `parse_env_string`: a blank value is refused, any other is kept as it is, untrimmed. */
  function ParseEnvString(name: string, value: string): (r: Result<string, Problem>)
    ensures r.Err? <==> Text.AllWhitespace(value)
    ensures r.Err? ==> r.error == EmptyVariable(name)
    ensures r.Ok? ==> r.value == value
  {
    Text.TrimEmptyIffBlank(value);
    if Text.Trim(value) == [] then Err(EmptyVariable(name)) else Ok(value)
  }

  /** `parse_env_path`: the same blank check, then tilde expansion. */
  function ParseEnvPath(name: string, value: string, homeDir: Option<string>): (r: Result<string, Problem>)
    ensures r.Err? <==> Text.AllWhitespace(value)
    ensures r.Err? ==> r.error == EmptyVariable(name)
    ensures r.Ok? ==> r.value == ConfigPaths.ExpandTildePath(value, homeDir)
  {
    var v :- ParseEnvString(name, value);
    Ok(ConfigPaths.ExpandTildePath(v, homeDir))
  }

  /** `parse_env_float`: the blank check, then `str::parse::<f64>` of the trimmed value. */
  function ParseEnvFloat(name: string, value: string): (r: Result<Floats.Float, Problem>)
    ensures Text.AllWhitespace(value) ==> r == Err(EmptyVariable(name))
    ensures !Text.AllWhitespace(value) ==> (r.Ok? <==> Floats.ParseFloat(Text.Trim(value)).Some?)
    ensures !Text.AllWhitespace(value) && r.Err? ==> r.error == InvalidNumber(name)
    ensures r.Ok? ==> Floats.ParseFloat(Text.Trim(value)) == Some(r.value)
  {
    var _ :- ParseEnvString(name, value);
    match Floats.ParseFloat(Text.Trim(value))
    case None => Err(InvalidNumber(name))
    case Some(x) => Ok(x)
  }

  /** What an `apply_*_override` for a path leaves in its field: unchanged when the variable is unset. */
  function OverridePath(current: string, env: map<string, string>, name: string, homeDir: Option<string>)
    : Result<string, Problem>
  {
    if name in env then ParseEnvPath(name, env[name], homeDir) else Ok(current)
  }

  function OverrideString(current: string, env: map<string, string>, name: string): Result<string, Problem>
  {
    if name in env then ParseEnvString(name, env[name]) else Ok(current)
  }

  function OverrideFloat(current: Floats.Float, env: map<string, string>, name: string)
    : Result<Floats.Float, Problem>
  {
    if name in env then ParseEnvFloat(name, env[name]) else Ok(current)
  }

  /** A whitespace-only value is refused by all three parsers, naming the variable. */
  lemma {:induction false} BlankRefused(name: string, value: string, homeDir: Option<string>)
    requires Text.AllWhitespace(value)
    ensures ParseEnvString(name, value) == Err(EmptyVariable(name))
    ensures ParseEnvPath(name, value, homeDir) == Err(EmptyVariable(name))
    ensures ParseEnvFloat(name, value) == Err(EmptyVariable(name))
  {
  }

  /** Surrounding whitespace makes no difference to what a value parses to. */
  lemma {:induction false} FloatIgnoresPadding(name: string, value: string)
    requires !Text.AllWhitespace(value)
    ensures ParseEnvFloat(name, " " + value + "\t") == ParseEnvFloat(name, value)
  {
    var padded := " " + value + "\t";
    TrimPadding(value);
    Text.TrimEmptyIffBlank(value);
    Text.TrimEmptyIffBlank(padded);
  }

  lemma {:induction false} TrimPadding(value: string)
    requires !Text.AllWhitespace(value)
    ensures Text.Trim(" " + value + "\t") == Text.Trim(value)
  {
    var padded := " " + value + "\t";
    assert Text.IsWhitespace(' ');
    assert padded[1..] == value + "\t";
    TrimStartAppend(value, "\t");
    var t := Text.TrimStart(value);
    assert Text.TrimStart(padded) == t + "\t";
    assert Text.IsWhitespace('\t');
    assert (t + "\t")[..|t|] == t;
  }

  lemma {:induction false} TrimStartAppend(s: string, tail: string)
    requires !Text.AllWhitespace(s)
    ensures Text.TrimStart(s + tail) == Text.TrimStart(s) + tail
  {
    if Text.IsWhitespace(s[0]) {
      assert (s + tail)[1..] == s[1..] + tail;
      TrimStartAppend(s[1..], tail);
    }
  }
}
