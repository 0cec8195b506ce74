/**
 * The configuration (`src/config/mod.rs`): defaults, then the values of a
 * configuration file, then environment overrides, then validation. Reading
 * and parsing the file is outside the model: its outcome is an input, as are
 * the environment and the platform's home directory.
 */
module Configuration {
  import opened Wrappers
  import Text
  import Floats
  import ConfigPaths
  import opened ConfigValidation
  import opened EnvParser

  const DEFAULT_MODEL: string := "BAAI/bge-small-en-v1.5"
  const DEFAULT_THRESHOLD: Floats.Float := Floats.Finite(0.85)
  const DEFAULT_RECENCY_WEIGHT: Floats.Float := Floats.Finite(0.3)

  /** The five configuration values, as the loader's `ConfigFile` holds them and a `Config` stores them. */
  datatype ConfigFile = ConfigFile(
    databasePath: string,
    embeddingModel: string,
    modelCache: string,
    similarityThreshold: Floats.Float,
    recencyWeight: Floats.Float)

  /** The home directory `Config::default` builds on: the platform's, else `$HOME`, else `.`. */
  function DefaultHome(homeDir: Option<string>, env: map<string, string>): string
  {
    homeDir.GetOr(if "HOME" in env then env["HOME"] else ".")
  }

  /** `Config::default`. */
  function DefaultValues(home: string): ConfigFile
  {
    var dir := ConfigPaths.Join(home, ".vipune");
    ConfigFile(ConfigPaths.Join(dir, "memories.db"), DEFAULT_MODEL, ConfigPaths.Join(dir, "models"),
               DEFAULT_THRESHOLD, DEFAULT_RECENCY_WEIGHT)
  }

  /** `merge_from_file`: non-empty text values of the file replace, the two numbers always do. */
  function Merge(c: ConfigFile, file: ConfigFile): ConfigFile
  {
    ConfigFile(
      if file.databasePath != [] then file.databasePath else c.databasePath,
      if file.embeddingModel != [] then file.embeddingModel else c.embeddingModel,
      if file.modelCache != [] then file.modelCache else c.modelCache,
      file.similarityThreshold,
      file.recencyWeight)
  }

  /** The file's values after `expand_tilde` on its two paths. */
  function ExpandFile(file: ConfigFile, homeDir: Option<string>): ConfigFile
  {
    file.(databasePath := ConfigPaths.ExpandTildePath(file.databasePath, homeDir),
          modelCache := ConfigPaths.ExpandTildePath(file.modelCache, homeDir))
  }

  /** `apply_env_overrides`: the five overrides in order, stopping at the first failure. */
  function WithEnv(c: ConfigFile, env: map<string, string>, homeDir: Option<string>): Result<ConfigFile, Problem>
  {
    var path :- OverridePath(c.databasePath, env, DATABASE_PATH_VAR, homeDir);
    var model :- OverrideString(c.embeddingModel, env, EMBEDDING_MODEL_VAR);
    var cache :- OverridePath(c.modelCache, env, MODEL_CACHE_VAR, homeDir);
    var threshold :- OverrideFloat(c.similarityThreshold, env, SIMILARITY_THRESHOLD_VAR);
    var weight :- OverrideFloat(c.recencyWeight, env, RECENCY_WEIGHT_VAR);
    Ok(ConfigFile(path, model, cache, threshold, weight))
  }

  function ValidatorOf(c: ConfigFile): ConfigValidator
  {
    ConfigValidator(c.databasePath, c.embeddingModel, c.similarityThreshold, c.recencyWeight)
  }

  /** What `Config::load` produces from the loader's outcome, the environment and the home directory. */
  function LoadValues(file: Result<Option<ConfigFile>, string>, env: map<string, string>, homeDir: Option<string>)
    : Result<ConfigFile, Problem>
  {
    if file.Err? then Err(Unreadable(file.error))
    else
      var defaults := DefaultValues(DefaultHome(homeDir, env));
      var merged := if file.value.Some? then Merge(defaults, ExpandFile(file.value.value, homeDir)) else defaults;
      var c :- WithEnv(merged, env, homeDir);
      var _ :- ValidatorOf(c).Validate();
      Ok(c)
  }

  class Config {
    var databasePath: string
    var embeddingModel: string
    var modelCache: string
    var similarityThreshold: Floats.Float
    var recencyWeight: Floats.Float

    function Values(): ConfigFile
      reads this
    {
      ConfigFile(databasePath, embeddingModel, modelCache, similarityThreshold, recencyWeight)
    }

    /** `Config::default` for the given home directory. */
    constructor Default(home: string)
      ensures Values() == DefaultValues(home)
    {
      var dir := ConfigPaths.Join(home, ".vipune");
      databasePath := ConfigPaths.Join(dir, "memories.db");
      embeddingModel := DEFAULT_MODEL;
      modelCache := ConfigPaths.Join(dir, "models");
      similarityThreshold := DEFAULT_THRESHOLD;
      recencyWeight := DEFAULT_RECENCY_WEIGHT;
    }

    method MergeFromFile(file: ConfigFile)
      modifies this
      ensures Values() == Merge(old(Values()), file)
    {
      if file.databasePath != [] {
        databasePath := file.databasePath;
      }
      if file.embeddingModel != [] {
        embeddingModel := file.embeddingModel;
      }
      if file.modelCache != [] {
        modelCache := file.modelCache;
      }
      similarityThreshold := file.similarityThreshold;
      recencyWeight := file.recencyWeight;
    }

    /** `apply_database_path_override`: on failure the field is left as it was. */
    method ApplyDatabasePathOverride(env: map<string, string>, homeDir: Option<string>) returns (r: Result<(), Problem>)
      modifies this
      ensures var o := OverridePath(old(databasePath), env, DATABASE_PATH_VAR, homeDir);
              (r.Ok? <==> o.Ok?) && (o.Err? ==> r.error == o.error)
              && Values() == old(Values()).(databasePath := if o.Ok? then o.value else old(databasePath))
    {
      r := Ok(());
      if DATABASE_PATH_VAR in env {
        var parsed := ParseEnvPath(DATABASE_PATH_VAR, env[DATABASE_PATH_VAR], homeDir);
        if parsed.Err? {
          return Err(parsed.error);
        }
        databasePath := parsed.value;
      }
    }

    /** `apply_embedding_model_override`. */
    method ApplyEmbeddingModelOverride(env: map<string, string>) returns (r: Result<(), Problem>)
      modifies this
      ensures var o := OverrideString(old(embeddingModel), env, EMBEDDING_MODEL_VAR);
              (r.Ok? <==> o.Ok?) && (o.Err? ==> r.error == o.error)
              && Values() == old(Values()).(embeddingModel := if o.Ok? then o.value else old(embeddingModel))
    {
      r := Ok(());
      if EMBEDDING_MODEL_VAR in env {
        var parsed := ParseEnvString(EMBEDDING_MODEL_VAR, env[EMBEDDING_MODEL_VAR]);
        if parsed.Err? {
          return Err(parsed.error);
        }
        embeddingModel := parsed.value;
      }
    }

    /** `apply_model_cache_override`. */
    method ApplyModelCacheOverride(env: map<string, string>, homeDir: Option<string>) returns (r: Result<(), Problem>)
      modifies this
      ensures var o := OverridePath(old(modelCache), env, MODEL_CACHE_VAR, homeDir);
              (r.Ok? <==> o.Ok?) && (o.Err? ==> r.error == o.error)
              && Values() == old(Values()).(modelCache := if o.Ok? then o.value else old(modelCache))
    {
      r := Ok(());
      if MODEL_CACHE_VAR in env {
        var parsed := ParseEnvPath(MODEL_CACHE_VAR, env[MODEL_CACHE_VAR], homeDir);
        if parsed.Err? {
          return Err(parsed.error);
        }
        modelCache := parsed.value;
      }
    }

    /** `apply_similarity_threshold_override`. */
    method ApplySimilarityThresholdOverride(env: map<string, string>) returns (r: Result<(), Problem>)
      modifies this
      ensures var o := OverrideFloat(old(similarityThreshold), env, SIMILARITY_THRESHOLD_VAR);
              (r.Ok? <==> o.Ok?) && (o.Err? ==> r.error == o.error)
              && Values() == old(Values()).(similarityThreshold := if o.Ok? then o.value else old(similarityThreshold))
    {
      r := Ok(());
      if SIMILARITY_THRESHOLD_VAR in env {
        var parsed := ParseEnvFloat(SIMILARITY_THRESHOLD_VAR, env[SIMILARITY_THRESHOLD_VAR]);
        if parsed.Err? {
          return Err(parsed.error);
        }
        similarityThreshold := parsed.value;
      }
    }

    /** `apply_recency_weight_override`. */
    method ApplyRecencyWeightOverride(env: map<string, string>) returns (r: Result<(), Problem>)
      modifies this
      ensures var o := OverrideFloat(old(recencyWeight), env, RECENCY_WEIGHT_VAR);
              (r.Ok? <==> o.Ok?) && (o.Err? ==> r.error == o.error)
              && Values() == old(Values()).(recencyWeight := if o.Ok? then o.value else old(recencyWeight))
    {
      r := Ok(());
      if RECENCY_WEIGHT_VAR in env {
        var parsed := ParseEnvFloat(RECENCY_WEIGHT_VAR, env[RECENCY_WEIGHT_VAR]);
        if parsed.Err? {
          return Err(parsed.error);
        }
        recencyWeight := parsed.value;
      }
    }

    /** `Config::validate`: the validator's verdict on the four checked fields. */
    function Validate(): (r: Result<(), Problem>)
      reads this
      ensures r == ValidatorOf(Values()).Validate()
      ensures r.Ok? <==>
                similarityThreshold.Finite? && 0.0 <= similarityThreshold.value <= 1.0
                && recencyWeight.Finite? && 0.0 <= recencyWeight.value <= 1.0
                && !Text.AllWhitespace(embeddingModel)
                && databasePath != []
    {
      var v := ConfigValidator(databasePath, embeddingModel, similarityThreshold, recencyWeight);
      ValidateAccepts(v);
      v.Validate()
    }

    /** `Config::load`. */
    static method Load(file: Result<Option<ConfigFile>, string>, env: map<string, string>, homeDir: Option<string>)
      returns (r: Result<Config, Problem>)
      ensures r.Ok? <==> LoadValues(file, env, homeDir).Ok?
      ensures r.Ok? ==> fresh(r.value) && r.value.Values() == LoadValues(file, env, homeDir).value
      ensures r.Err? ==> r.error == LoadValues(file, env, homeDir).error
    {
      if file.Err? {
        return Err(Unreadable(file.error));
      }
      var config := new Config.Default(DefaultHome(homeDir, env));
      if file.value.Some? {
        var f := file.value.value;
        var path := ConfigPaths.ExpandTilde(f.databasePath, homeDir);
        var cache := ConfigPaths.ExpandTilde(f.modelCache, homeDir);
        config.MergeFromFile(f.(databasePath := path, modelCache := cache));
      }
      ghost var merged := config.Values();
      assert merged == (if file.value.Some? then Merge(DefaultValues(DefaultHome(homeDir, env)), ExpandFile(file.value.value, homeDir))
                        else DefaultValues(DefaultHome(homeDir, env)));
      var step := config.ApplyDatabasePathOverride(env, homeDir);
      if step.Err? {
        return Err(step.error);
      }
      step := config.ApplyEmbeddingModelOverride(env);
      if step.Err? {
        return Err(step.error);
      }
      step := config.ApplyModelCacheOverride(env, homeDir);
      if step.Err? {
        return Err(step.error);
      }
      step := config.ApplySimilarityThresholdOverride(env);
      if step.Err? {
        return Err(step.error);
      }
      step := config.ApplyRecencyWeightOverride(env);
      if step.Err? {
        return Err(step.error);
      }
      assert WithEnv(merged, env, homeDir) == Ok(config.Values());
      var valid := config.Validate();
      if valid.Err? {
        return Err(valid.error);
      }
      return Ok(config);
    }
  }

  /** The defaults pass validation, whatever the home directory. */
  lemma {:induction false} DefaultIsValid(home: string)
    ensures ValidatorOf(DefaultValues(home)).Validate().Ok?
  {
    Text.VisibleAsciiNotWhitespace('B');
    assert DEFAULT_MODEL[0] == 'B';
    ValidateAccepts(ValidatorOf(DefaultValues(home)));
  }

  /** Whatever `load` returns has passed every check. */
  lemma {:induction false} LoadedIsValid(file: Result<Option<ConfigFile>, string>, env: map<string, string>, homeDir: Option<string>)
    requires LoadValues(file, env, homeDir).Ok?
    ensures var c := LoadValues(file, env, homeDir).value;
            c.similarityThreshold.Finite? && 0.0 <= c.similarityThreshold.value <= 1.0
            && c.recencyWeight.Finite? && 0.0 <= c.recencyWeight.value <= 1.0
            && !Text.AllWhitespace(c.embeddingModel) && c.databasePath != []
  {
    ValidateAccepts(ValidatorOf(LoadValues(file, env, homeDir).value));
  }

  /** With no file and none of the five variables set, `load` yields the defaults. */
  lemma {:induction false} NothingSetGivesDefaults(env: map<string, string>, homeDir: Option<string>)
    requires DATABASE_PATH_VAR !in env && EMBEDDING_MODEL_VAR !in env && MODEL_CACHE_VAR !in env
    requires SIMILARITY_THRESHOLD_VAR !in env && RECENCY_WEIGHT_VAR !in env
    ensures LoadValues(Ok(None), env, homeDir) == Ok(DefaultValues(DefaultHome(homeDir, env)))
  {
    DefaultIsValid(DefaultHome(homeDir, env));
  }

  /** A variable that is set decides its field, over the file and the defaults. */
  lemma {:induction false} EnvironmentWins(file: Result<Option<ConfigFile>, string>, env: map<string, string>, homeDir: Option<string>)
    requires LoadValues(file, env, homeDir).Ok?
    ensures var c := LoadValues(file, env, homeDir).value;
            (DATABASE_PATH_VAR in env ==>
               c.databasePath == ConfigPaths.ExpandTildePath(env[DATABASE_PATH_VAR], homeDir))
            && (EMBEDDING_MODEL_VAR in env ==> c.embeddingModel == env[EMBEDDING_MODEL_VAR])
            && (MODEL_CACHE_VAR in env ==>
                  c.modelCache == ConfigPaths.ExpandTildePath(env[MODEL_CACHE_VAR], homeDir))
            && (SIMILARITY_THRESHOLD_VAR in env ==>
                  Floats.ParseFloat(Text.Trim(env[SIMILARITY_THRESHOLD_VAR])) == Some(c.similarityThreshold))
            && (RECENCY_WEIGHT_VAR in env ==>
                  Floats.ParseFloat(Text.Trim(env[RECENCY_WEIGHT_VAR])) == Some(c.recencyWeight))
  {
    var defaults := DefaultValues(DefaultHome(homeDir, env));
    var merged := if file.value.Some? then Merge(defaults, ExpandFile(file.value.value, homeDir)) else defaults;
    assert WithEnv(merged, env, homeDir) == LoadValues(file, env, homeDir);
    WithEnvFields(merged, env, homeDir);
  }

  /** Each field `apply_env_overrides` leaves is what its own override step made of it. */
  lemma {:induction false} WithEnvFields(c: ConfigFile, env: map<string, string>, homeDir: Option<string>)
    requires WithEnv(c, env, homeDir).Ok?
    ensures OverridePath(c.databasePath, env, DATABASE_PATH_VAR, homeDir).Ok?
            && OverrideString(c.embeddingModel, env, EMBEDDING_MODEL_VAR).Ok?
            && OverridePath(c.modelCache, env, MODEL_CACHE_VAR, homeDir).Ok?
            && OverrideFloat(c.similarityThreshold, env, SIMILARITY_THRESHOLD_VAR).Ok?
            && OverrideFloat(c.recencyWeight, env, RECENCY_WEIGHT_VAR).Ok?
            && WithEnv(c, env, homeDir).value
               == ConfigFile(OverridePath(c.databasePath, env, DATABASE_PATH_VAR, homeDir).value,
                             OverrideString(c.embeddingModel, env, EMBEDDING_MODEL_VAR).value,
                             OverridePath(c.modelCache, env, MODEL_CACHE_VAR, homeDir).value,
                             OverrideFloat(c.similarityThreshold, env, SIMILARITY_THRESHOLD_VAR).value,
                             OverrideFloat(c.recencyWeight, env, RECENCY_WEIGHT_VAR).value)
  {
  }

  /** Without its variable, a field takes the file's value: always for the numbers, when non-empty for the rest. */
  lemma {:induction false} FileBeatsDefaults(file: ConfigFile, env: map<string, string>, homeDir: Option<string>)
    requires LoadValues(Ok(Some(file)), env, homeDir).Ok?
    ensures var c := LoadValues(Ok(Some(file)), env, homeDir).value;
            var path := ConfigPaths.ExpandTildePath(file.databasePath, homeDir);
            var cache := ConfigPaths.ExpandTildePath(file.modelCache, homeDir);
            (DATABASE_PATH_VAR !in env && path != [] ==> c.databasePath == path)
            && (EMBEDDING_MODEL_VAR !in env && file.embeddingModel != [] ==> c.embeddingModel == file.embeddingModel)
            && (MODEL_CACHE_VAR !in env && cache != [] ==> c.modelCache == cache)
            && (SIMILARITY_THRESHOLD_VAR !in env ==> c.similarityThreshold == file.similarityThreshold)
            && (RECENCY_WEIGHT_VAR !in env ==> c.recencyWeight == file.recencyWeight)
  {
    var merged := Merge(DefaultValues(DefaultHome(homeDir, env)), ExpandFile(file, homeDir));
    assert LoadValues(Ok(Some(file)), env, homeDir) == WithEnv(merged, env, homeDir);
    UnsetKeeps(merged, env, homeDir);
  }

  /** A variable that is not set leaves its field as the earlier sources left it. */
  lemma {:induction false} UnsetKeeps(c: ConfigFile, env: map<string, string>, homeDir: Option<string>)
    requires WithEnv(c, env, homeDir).Ok?
    ensures var d := WithEnv(c, env, homeDir).value;
            (DATABASE_PATH_VAR !in env ==> d.databasePath == c.databasePath)
            && (EMBEDDING_MODEL_VAR !in env ==> d.embeddingModel == c.embeddingModel)
            && (MODEL_CACHE_VAR !in env ==> d.modelCache == c.modelCache)
            && (SIMILARITY_THRESHOLD_VAR !in env ==> d.similarityThreshold == c.similarityThreshold)
            && (RECENCY_WEIGHT_VAR !in env ==> d.recencyWeight == c.recencyWeight)
  {
    WithEnvFields(c, env, homeDir);
  }

  /** A configuration file that cannot be read fails `load` before anything else is looked at. */
  lemma {:induction false} UnreadableFileFails(message: string, env: map<string, string>, homeDir: Option<string>)
    ensures LoadValues(Err(message), env, homeDir) == Err(Unreadable(message))
  {
  }

  /** A blank variable fails `load`, naming the first such variable in override order. */
  lemma {:induction false} BlankVariableFails(file: Option<ConfigFile>, env: map<string, string>, homeDir: Option<string>)
    requires DATABASE_PATH_VAR in env && Text.AllWhitespace(env[DATABASE_PATH_VAR])
    ensures LoadValues(Ok(file), env, homeDir) == Err(EmptyVariable(DATABASE_PATH_VAR))
  {
  }
}
