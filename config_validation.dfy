/**
 * Configuration checks (`src/config/validation.rs`) and the configuration
 * errors the loader and the environment parser raise. Every one of them
 * reaches the caller as `Error::Config` carrying `Message`.
 */
module ConfigValidation {
  import opened Wrappers
  import Text
  import Errors
  import opened Floats

  const SIMILARITY_THRESHOLD: string := "similarity threshold"
  const RECENCY_WEIGHT: string := "recency weight"

  datatype Problem =
    | NotFinite(field: string)
    | OutOfUnitRange(field: string, value: Float)
    | EmptyModel
    | EmptyPath
    | EmptyVariable(name: string)
    | InvalidNumber(name: string)
    | Unreadable(message: string)

  /** The error text, with `show` standing for Rust's `{}` formatting of an `f64`. */
  function Message(p: Problem, show: Float -> string): string
  {
    match p
    case NotFinite(field) => "Invalid " + field + ": NaN and infinity are not allowed"
    case OutOfUnitRange(field, v) => "Invalid " + field + ": " + show(v) + " (must be between 0.0 and 1.0)"
    case EmptyModel => "Embedding model cannot be empty"
    case EmptyPath => "Database path cannot be empty"
    case EmptyVariable(name) => name + " cannot be empty"
    case InvalidNumber(name) => "Invalid " + name + " value: invalid float literal"
    case Unreadable(message) => message
  }

  function AsError(p: Problem, show: Float -> string): Errors.Error
  {
    Errors.Config(Message(p, show))
  }

  /** One of the two numeric checks: finite first, then within `[0, 1]`. */
  function CheckUnit(field: string, x: Float): (r: Result<(), Problem>)
    ensures r.Ok? <==> x.Finite? && 0.0 <= x.value <= 1.0
    ensures r.Err? ==> (r.error.NotFinite? || r.error.OutOfUnitRange?) && r.error.field == field
    ensures r.Err? ==> (r.error.NotFinite? <==> !x.Finite?)
  {
    if !x.IsFinite() then Err(NotFinite(field))
    else if x.value < 0.0 || x.value > 1.0 then Err(OutOfUnitRange(field, x))
    else Ok(())
  }

  datatype ConfigValidator = ConfigValidator(
    databasePath: string,
    embeddingModel: string,
    similarityThreshold: Float,
    recencyWeight: Float)
  {
    /** `validate`: threshold, recency weight, model, path, in that order; the first failure is reported. */
    function Validate(): Result<(), Problem>
    {
      var _ :- CheckUnit(SIMILARITY_THRESHOLD, similarityThreshold);
      var _ :- CheckUnit(RECENCY_WEIGHT, recencyWeight);
      var _ :- if Text.Trim(embeddingModel) == [] then Err(EmptyModel) else Ok(());
      if databasePath == [] then Err(EmptyPath) else Ok(())
    }
  }

  /** `validate` accepts exactly the finite weights in `[0, 1]` with a non-blank model and a non-empty path. */
  lemma {:induction false} ValidateAccepts(v: ConfigValidator)
    ensures v.Validate().Ok? <==>
              v.similarityThreshold.Finite? && 0.0 <= v.similarityThreshold.value <= 1.0
              && v.recencyWeight.Finite? && 0.0 <= v.recencyWeight.value <= 1.0
              && !Text.AllWhitespace(v.embeddingModel)
              && v.databasePath != []
  {
    ValidateSteps(v);
    Text.TrimEmptyIffBlank(v.embeddingModel);
  }

  lemma {:induction false} ValidateSteps(v: ConfigValidator)
    ensures v.Validate().Ok? <==>
              CheckUnit(SIMILARITY_THRESHOLD, v.similarityThreshold).Ok?
              && CheckUnit(RECENCY_WEIGHT, v.recencyWeight).Ok?
              && Text.Trim(v.embeddingModel) != []
              && v.databasePath != []
  {
  }

  /** Which failure `validate` reports: the earliest check that fails. */
  lemma {:induction false} ValidateReportsFirst(v: ConfigValidator)
    ensures CheckUnit(SIMILARITY_THRESHOLD, v.similarityThreshold).Err? ==>
              v.Validate() == CheckUnit(SIMILARITY_THRESHOLD, v.similarityThreshold)
    ensures CheckUnit(SIMILARITY_THRESHOLD, v.similarityThreshold).Ok?
            && CheckUnit(RECENCY_WEIGHT, v.recencyWeight).Err? ==>
              v.Validate() == CheckUnit(RECENCY_WEIGHT, v.recencyWeight)
    ensures CheckUnit(SIMILARITY_THRESHOLD, v.similarityThreshold).Ok?
            && CheckUnit(RECENCY_WEIGHT, v.recencyWeight).Ok?
            && Text.AllWhitespace(v.embeddingModel) ==>
              v.Validate() == Err(EmptyModel)
    ensures v.Validate().Err? && v.Validate().error.EmptyPath? ==>
              !Text.AllWhitespace(v.embeddingModel) && v.databasePath == []
  {
    Text.TrimEmptyIffBlank(v.embeddingModel);
  }
}
