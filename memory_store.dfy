/**
 * The memory store (`src/memory/store.rs`, `src/memory/crud.rs`,
 * `src/memory/search.rs`): input checks, then the embedding engine and the
 * database, for adding, reading, updating and deleting memories and for
 * semantic and hybrid search with optional recency weighting. The embedding
 * engine, the clock, the id generator and the engine's BM25 ranking are
 * inputs.
 */
module Store {
  import opened Wrappers
  import opened SqliteTypes
  import opened Errors
  import Text
  import Floats
  import Sorting
  import VectorSearch
  import Storage
  import FtsIndex
  import Rrf
  import Embedding
  import Temporal
  import Rfc3339
  import Configuration

  /** The longest content or query accepted, in characters. */
  const MAX_INPUT_LENGTH: nat := 100000
  /** The largest `limit` a listing or search accepts. */
  const MAX_SEARCH_LIMIT: nat := 10000
  /** The largest candidate pool hybrid search asks each ranking for. */
  const MAX_CANDIDATE_POOL: nat := 10000
  /** `usize::MAX` on a 64-bit target, where `saturating_mul` stops. */
  const USIZE_MAX: nat := 0xFFFF_FFFF_FFFF_FFFF

  /** A stored memory too similar to the proposed content. */
  datatype ConflictMemory = ConflictMemory(id: string, content: string, similarity: real)

  /** What `add_with_conflict` reports. */
  datatype AddResult =
    | Added(id: string)
    | Conflicts(proposed: string, conflicts: seq<ConflictMemory>)

  /**
   * `validate_input_length`: blank text is refused first, then text longer
   * than `MAX_INPUT_LENGTH`; text of exactly that length passes.
   */
  function ValidateInputLength(text: string): (r: Result<(), Error>)
    ensures r == Err(EmptyInput) <==> Text.AllWhitespace(text)
    ensures !Text.AllWhitespace(text) ==> (r.Ok? <==> |text| <= MAX_INPUT_LENGTH)
    ensures r.Err? && !Text.AllWhitespace(text) ==> r.error == InputTooLong(MAX_INPUT_LENGTH, |text|)
  {
    Text.TrimEmptyIffBlank(text);
    if Text.Trim(text) == [] then Err(EmptyInput)
    else if |text| > MAX_INPUT_LENGTH then Err(InputTooLong(MAX_INPUT_LENGTH, |text|))
    else Ok(())
  }

  /** The limit guard of `list`, `search` and `search_hybrid`. */
  function CheckLimit(limit: nat): (r: Result<(), Error>)
    ensures r.Ok? <==> 1 <= limit <= MAX_SEARCH_LIMIT
    ensures r.Err? ==> r.error.InvalidInput?
  {
    if limit == 0 then Err(InvalidInput("Limit must be greater than 0"))
    else if limit > MAX_SEARCH_LIMIT then
      Err(InvalidInput("Limit " + Text.NatToString(limit) + " exceeds maximum allowed ("
                       + Text.NatToString(MAX_SEARCH_LIMIT) + ")"))
    else Ok(())
  }

  /**
   * The store's guard refuses exactly the limits the database's own guard
   * refuses, with the same text, so the database's guard never fires after it.
   */
  lemma {:induction false} CheckLimitAgrees(limit: nat)
    ensures CheckLimit(limit).Ok? <==> VectorSearch.ValidateLimit(limit).Ok?
    ensures CheckLimit(limit).Err? ==>
              CheckLimit(limit) == Err(InvalidInput(VectorSearch.ValidateLimit(limit).error.message))
  {
  }

  /** `validate_recency_weight(..).map_err(Error::Validation)`. */
  function CheckRecencyWeight(weight: Floats.Float, show: Floats.Float -> string): (r: Result<(), Error>)
    ensures r.Ok? <==> weight.Finite? && 0.0 <= weight.value <= 1.0
    ensures r.Err? ==> r.error.Validation?
  {
    match Temporal.ValidateRecencyWeight(weight)
    case Err(e) => Err(Validation(Temporal.Message(e, show)))
    case Ok(_) => Ok(())
  }

  /** `limit.saturating_mul(10).clamp(50, MAX_CANDIDATE_POOL)`. */
  function CandidatePool(limit: nat): (pool: nat)
    ensures 50 <= pool <= MAX_CANDIDATE_POOL
    ensures 1 <= limit <= MAX_SEARCH_LIMIT ==> limit <= pool
    ensures 5 <= limit <= 1000 ==> pool == 10 * limit
  {
    var scaled := if limit * 10 > USIZE_MAX then USIZE_MAX else limit * 10;
    if scaled < 50 then 50 else if scaled > MAX_CANDIDATE_POOL then MAX_CANDIDATE_POOL else scaled
  }

  /** The checks `search_hybrid` makes before embedding: the query, the weight, then the limit. */
  function HybridChecks(query: string, limit: nat, weight: Floats.Float, show: Floats.Float -> string)
    : Result<(), Error>
  {
    var _ :- ValidateInputLength(Text.Trim(query));
    var _ :- CheckRecencyWeight(weight, show);
    CheckLimit(limit)
  }

  /** `search_hybrid` looks at the query and the weight before the limit. */
  lemma {:induction false} HybridCheckOrder(query: string, limit: nat, weight: Floats.Float, show: Floats.Float -> string)
    ensures Text.AllWhitespace(Text.Trim(query)) ==> HybridChecks(query, limit, weight, show) == Err(EmptyInput)
    ensures ValidateInputLength(Text.Trim(query)).Ok? && CheckRecencyWeight(weight, show).Err? ==>
              HybridChecks(query, limit, weight, show) == CheckRecencyWeight(weight, show)
    ensures HybridChecks(query, limit, weight, show).Ok? <==>
              ValidateInputLength(Text.Trim(query)).Ok? && weight.Finite? && 0.0 <= weight.value <= 1.0
              && 1 <= limit <= MAX_SEARCH_LIMIT
  {
    var valid := ValidateInputLength(Text.Trim(query));
    var weightOk := CheckRecencyWeight(weight, show);
    assert HybridChecks(query, limit, weight, show)
           == if valid.Err? then Err(valid.error) else if weightOk.Err? then Err(weightOk.error) else CheckLimit(limit);
  }

  /** The checks `search` makes before embedding: the limit, the query, then the weight. */
  function SearchChecks(query: string, limit: nat, weight: Floats.Float, show: Floats.Float -> string)
    : Result<(), Error>
  {
    var _ :- CheckLimit(limit);
    var _ :- ValidateInputLength(Text.Trim(query));
    CheckRecencyWeight(weight, show)
  }

  /** `search` looks at the limit before the query, and at both before the weight. */
  lemma {:induction false} SearchCheckOrder(query: string, limit: nat, weight: Floats.Float, show: Floats.Float -> string)
    ensures CheckLimit(limit).Err? ==> SearchChecks(query, limit, weight, show) == CheckLimit(limit)
    ensures CheckLimit(limit).Ok? && Text.AllWhitespace(Text.Trim(query)) ==>
              SearchChecks(query, limit, weight, show) == Err(EmptyInput)
    ensures SearchChecks(query, limit, weight, show).Ok? <==>
              1 <= limit <= MAX_SEARCH_LIMIT && ValidateInputLength(Text.Trim(query)).Ok?
              && weight.Finite? && 0.0 <= weight.value <= 1.0
  {
    var limitOk := CheckLimit(limit);
    var valid := ValidateInputLength(Text.Trim(query));
    assert SearchChecks(query, limit, weight, show)
           == if limitOk.Err? then Err(limitOk.error) else if valid.Err? then Err(valid.error)
              else CheckRecencyWeight(weight, show);
  }

  /** The conflict entry for one similar memory; a missing score counts as 0. */
  function ToConflict(m: Memory): ConflictMemory
  {
    ConflictMemory(m.id, m.content, Score(m))
  }

  function ConflictsOf(similar: seq<Memory>): (r: seq<ConflictMemory>)
    ensures |r| == |similar|
    ensures forall i :: 0 <= i < |r| ==> r[i] == ToConflict(similar[i])
  {
    seq(|similar|, i requires 0 <= i < |similar| => ToConflict(similar[i]))
  }

  /**
   * What `Database::insert` reports for an embedding and a fresh id, after
   * the `?` conversion: a wrongly sized embedding, a taken id, or the id.
   */
  function InsertOutcome(rows: seq<Row>, embedding: seq<bv32>, newId: string): (r: Result<string, Error>)
  {
    match Embedding.VecToBlob(embedding)
    case Err(e) => Err(FromDbError(e))
    case Ok(_) =>
      if Storage.IndexOfId(rows, newId).Some? then Err(FromDbError(Sqlite(Storage.DUPLICATE_ID_MESSAGE)))
      else Ok(newId)
  }

  /** What `Database::update` reports, after the `?` conversion. */
  function UpdateStatus(rows: seq<Row>, id: string, embedding: seq<bv32>): (r: Result<(), Error>)
  {
    match Embedding.VecToBlob(embedding)
    case Err(e) => Err(FromDbError(e))
    case Ok(_) =>
      if Storage.IndexOfId(rows, id).None? then Err(FromDbError(Sqlite(Storage.NotFoundMessage(id))))
      else Ok(())
  }

  /** One iteration of the recency loop: parse `created_at`, then blend the score with its decay. */
  function Reweigh(m: Memory, weight: real, c: Temporal.DecayConfig, nowNs: int, exp: real -> real)
    : Result<Memory, Error>
  {
    match Rfc3339.Parse(m.createdAt)
    case Err(e) => Err(InvalidTimestamp(m.id, m.createdAt, Rfc3339.ErrorMessage(e)))
    case Ok(createdNs) =>
      Ok(m.(similarity := Some(Temporal.ApplyRecencyWeight(Score(m), createdNs, nowNs, weight, c, exp))))
  }

  /** `Reweigh` with its settings fixed, as the loop applies it to each memory. */
  function Reweighing(weight: real, c: Temporal.DecayConfig, nowNs: int, exp: real -> real)
    : Memory -> Result<Memory, Error>
  {
    m => Reweigh(m, weight, c, nowNs, exp)
  }

  /** The whole loop: every memory reweighed in order, the first bad timestamp aborting. */
  function ReweighAll(ms: seq<Memory>, weight: real, c: Temporal.DecayConfig, nowNs: int, exp: real -> real)
    : (r: Result<seq<Memory>, Error>)
    ensures r.Ok? ==> |r.value| == |ms|
    ensures r.Err? ==> r.error.InvalidTimestamp?
  {
    MapAllMeaning(ms, Reweighing(weight, c, nowNs, exp));
    MapAll(ms, Reweighing(weight, c, nowNs, exp))
  }

  /**
   * The loop succeeds exactly when every timestamp parses, and then holds
   * every memory reweighed, in order; otherwise it reports the first failure.
   */
  lemma {:induction false} ReweighAllMeaning(ms: seq<Memory>, weight: real, c: Temporal.DecayConfig, nowNs: int,
                                             exp: real -> real)
    ensures var r := ReweighAll(ms, weight, c, nowNs, exp);
            (r.Ok? <==> forall i :: 0 <= i < |ms| ==> Reweigh(ms[i], weight, c, nowNs, exp).Ok?)
            && (r.Ok? ==> forall i :: 0 <= i < |ms| ==> r.value[i] == Reweigh(ms[i], weight, c, nowNs, exp).value)
            && (r.Err? ==> exists i :: 0 <= i < |ms| && Reweigh(ms[i], weight, c, nowNs, exp) == Err(r.error)
                                       && forall j :: 0 <= j < i ==> Reweigh(ms[j], weight, c, nowNs, exp).Ok?)
  {
    MapAllMeaning(ms, Reweighing(weight, c, nowNs, exp));
  }

  /**
   * Step 6 of both searches: for a positive weight, every score reweighed
   * and the list re-sorted by score, highest first; otherwise the list as it is.
   */
  function Reranked(ms: seq<Memory>, weight: real, c: Temporal.DecayConfig, nowNs: int, exp: real -> real)
    : Result<seq<Memory>, Error>
  {
    if weight > 0.0 then
      var reweighed :- ReweighAll(ms, weight, c, nowNs, exp);
      Ok(Sorting.SortBy(reweighed, VectorSearch.ScoreBefore))
    else Ok(ms)
  }

  /**
   * With weight zero the list is untouched. With a positive weight the result
   * is sorted by score and holds exactly the reweighed memories: each result
   * is the reweighing of some input, and each input's reweighing is a result.
   */
  lemma {:induction false} RerankedProperties(ms: seq<Memory>, weight: real, c: Temporal.DecayConfig, nowNs: int, exp: real -> real)
    requires Reranked(ms, weight, c, nowNs, exp).Ok?
    ensures var r := Reranked(ms, weight, c, nowNs, exp).value;
            |r| == |ms|
            && (weight <= 0.0 ==> r == ms)
            && (weight > 0.0 ==>
                  Sorting.SortedBy(r, VectorSearch.ScoreBefore)
                  && (forall m :: m in r ==> exists i :: 0 <= i < |ms| && Reweigh(ms[i], weight, c, nowNs, exp) == Ok(m))
                  && (forall i :: 0 <= i < |ms| ==>
                        Reweigh(ms[i], weight, c, nowNs, exp).Ok? && Reweigh(ms[i], weight, c, nowNs, exp).value in r))
  {
    if weight > 0.0 {
      var f := Reweighing(weight, c, nowNs, exp);
      var reweighed := MapAll(ms, f).value;
      var r := Sorting.SortBy(reweighed, VectorSearch.ScoreBefore);
      VectorSearch.ScoreBeforeIsStrictOrder();
      Sorting.SortBySorted(reweighed, VectorSearch.ScoreBefore);
      MapAllMembers(ms, f);
      forall m | m in r
        ensures exists i :: 0 <= i < |ms| && f(ms[i]) == Ok(m)
      {
        assert m in multiset(reweighed);
      }
      forall i | 0 <= i < |ms|
        ensures f(ms[i]).Ok? && f(ms[i]).value in r
      {
        assert f(ms[i]).value in multiset(r);
      }
    }
  }

  /**
   * A reweighed memory keeps everything but its score; with a weight in
   * `(0, 1]` the new score lies between the old one and the decay factor.
   */
  lemma {:induction false} ReweighBlends(m: Memory, weight: real, c: Temporal.DecayConfig, nowNs: int, exp: real -> real)
    requires 0.0 < weight <= 1.0
    requires Reweigh(m, weight, c, nowNs, exp).Ok?
    ensures var r := Reweigh(m, weight, c, nowNs, exp).value;
            var d := Temporal.CalculateDecay(c, Rfc3339.Parse(m.createdAt).value, nowNs, exp);
            r == m.(similarity := r.similarity) && r.similarity.Some?
            && (Score(m) <= d ==> Score(m) <= Score(r) <= d)
            && (d <= Score(m) ==> d <= Score(r) <= Score(m))
  {
    Temporal.RecencyWeightBlends(Score(m), Rfc3339.Parse(m.createdAt).value, nowNs, weight, c, exp);
  }

  /**
   * With a positive weight, a `created_at` that does not parse aborts the
   * search with `InvalidTimestamp` naming that memory, when every earlier
   * one parsed.
   */
  lemma {:induction false} BadTimestampAborts(ms: seq<Memory>, k: nat, weight: real, c: Temporal.DecayConfig, nowNs: int,
                           exp: real -> real)
    requires weight > 0.0 && k < |ms|
    requires Rfc3339.Parse(ms[k].createdAt).Err?
    requires forall j :: 0 <= j < k ==> Rfc3339.Parse(ms[j].createdAt).Ok?
    ensures Reranked(ms, weight, c, nowNs, exp)
            == Err(InvalidTimestamp(ms[k].id, ms[k].createdAt, Rfc3339.ErrorMessage(Rfc3339.Parse(ms[k].createdAt).error)))
  {
    MapAllFirstError(ms, k, Reweighing(weight, c, nowNs, exp));
  }

  /** Steps 6 and 7 of `search_hybrid`: rerank the fused list, then keep the first `limit`. */
  function Finish(fused: seq<Memory>, limit: nat, weight: real, c: Temporal.DecayConfig, nowNs: int,
                  exp: real -> real): Result<seq<Memory>, Error>
  {
    var ranked :- Reranked(fused, weight, c, nowNs, exp);
    Ok(Sorting.Take(ranked, limit))
  }

  /** The only way the final ranking fails is a stored timestamp that does not parse, and only when reweighing. */
  lemma {:induction false} FinishFailsOnlyOnTimestamp(fused: seq<Memory>, limit: nat, weight: real, c: Temporal.DecayConfig, nowNs: int,
                                   exp: real -> real)
    ensures Finish(fused, limit, weight, c, nowNs, exp).Err? ==>
              weight > 0.0 && Finish(fused, limit, weight, c, nowNs, exp).error.InvalidTimestamp?
  {
  }

  /**
   * Reranking keeps the number of memories and their project, and a list
   * sorted by score stays sorted.
   */
  lemma {:induction false} RerankedKeeps(ms: seq<Memory>, weight: real, c: Temporal.DecayConfig, nowNs: int, exp: real -> real,
                      projectId: string)
    requires Reranked(ms, weight, c, nowNs, exp).Ok?
    requires forall m :: m in ms ==> m.projectId == projectId
    ensures var r := Reranked(ms, weight, c, nowNs, exp).value;
            |r| == |ms|
            && (forall m :: m in r ==> m.projectId == projectId)
            && (Sorting.SortedBy(ms, VectorSearch.ScoreBefore) ==> Sorting.SortedBy(r, VectorSearch.ScoreBefore))
  {
    RerankedProperties(ms, weight, c, nowNs, exp);
    if weight > 0.0 {
      var r := Reranked(ms, weight, c, nowNs, exp).value;
      forall m | m in r
        ensures m.projectId == projectId
      {
        var i :| 0 <= i < |ms| && Reweigh(ms[i], weight, c, nowNs, exp) == Ok(m);
        assert ms[i] in ms;
      }
    }
  }

  /** Truncation keeps a property of every element. */
  lemma {:induction false} TakeKeepsProject(ms: seq<Memory>, limit: nat, projectId: string)
    requires forall m :: m in ms ==> m.projectId == projectId
    ensures forall m :: m in Sorting.Take(ms, limit) ==> m.projectId == projectId
  {
    forall m | m in Sorting.Take(ms, limit)
      ensures m.projectId == projectId
    {
      var i :| 0 <= i < |Sorting.Take(ms, limit)| && Sorting.Take(ms, limit)[i] == m;
      assert ms[i] in ms;
    }
  }

  /** The fusion of two rankings of one project holds only memories of that project. */
  lemma {:induction false} FusedOfProject(fused: seq<Memory>, sem: seq<Memory>, bm25: seq<Memory>, projectId: string)
    requires Rrf.IsFusion(fused, [sem, bm25], Rrf.DEFAULT_CONFIG.k)
    requires forall m :: m in sem ==> m.projectId == projectId
    requires forall m :: m in bm25 ==> m.projectId == projectId
    ensures forall m :: m in fused ==> m.projectId == projectId
  {
    var lists: seq<seq<Memory>> := [sem, bm25];
    forall l, p | 0 <= l < |lists| && 0 <= p < |lists[l]|
      ensures lists[l][p].projectId == projectId
    {
      assert lists[l][p] in lists[l];
    }
    Rrf.FusionKeepsProject(fused, lists, Rrf.DEFAULT_CONFIG.k, projectId);
  }

  /**
   * Hybrid results: at most `limit` of them, all of the project whose two
   * rankings were fused; with weight zero, the fusion itself, truncated.
   */
  lemma {:induction false} FinishProperties(fused: seq<Memory>, sem: seq<Memory>, bm25: seq<Memory>, projectId: string, limit: nat,
                         weight: real, c: Temporal.DecayConfig, nowNs: int, exp: real -> real)
    requires Rrf.IsFusion(fused, [sem, bm25], Rrf.DEFAULT_CONFIG.k)
    requires forall m :: m in sem ==> m.projectId == projectId
    requires forall m :: m in bm25 ==> m.projectId == projectId
    requires Finish(fused, limit, weight, c, nowNs, exp).Ok?
    ensures var r := Finish(fused, limit, weight, c, nowNs, exp).value;
            |r| <= limit
            && (forall m :: m in r ==> m.projectId == projectId)
            && (weight <= 0.0 ==> r == Sorting.Take(fused, limit))
  {
    FusedOfProject(fused, sem, bm25, projectId);
    RerankedKeeps(fused, weight, c, nowNs, exp, projectId);
    TakeKeepsProject(Reranked(fused, weight, c, nowNs, exp).value, limit, projectId);
  }

  class MemoryStore {
    const db: Storage.Database
    /** `EmbeddingEngine::embed`: the text's vector, or the engine's error. */
    const embed: string -> Result<seq<bv32>, Error>
    const config: Configuration.Config
    /** `f64::exp`, used by the exponential decay. */
    const exp: real -> real

    ghost predicate Valid()
      reads db
    {
      db.Valid()
    }

    /** `MemoryStore::new`, given the opened database and the loaded engine. */
    constructor(db: Storage.Database, embed: string -> Result<seq<bv32>, Error>, config: Configuration.Config,
                exp: real -> real)
      requires db.Valid()
      ensures Valid()
      ensures this.db == db && this.embed == embed && this.config == config && this.exp == exp
    {
      this.db := db;
      this.embed := embed;
      this.config := config;
      this.exp := exp;
    }

    /**
     * After a successful insert: exactly one row appended, under the next
     * rowid, holding the encoded embedding, which `get` returns with both
     * timestamps `now`.
     */
    ghost predicate Stored(before: seq<Row>, newId: string, projectId: string, content: string,
                           embedding: seq<bv32>, metadata: Option<string>, now: string)
      reads db
    {
      Embedding.VecToBlob(embedding).Ok?
      && db.rows == before + [Row(Storage.NextRowid(before), newId, projectId, content,
                                  Embedding.VecToBlob(embedding).value, metadata, now, now)]
      && db.Get(newId) == Some(Memory(newId, projectId, content, metadata, None, now, now))
    }

    /** What `add` returns against the table `rows`. */
    function AddOutcome(rows: seq<Row>, content: string, newId: string): Result<string, Error>
    {
      var _ :- ValidateInputLength(content);
      var embedding :- embed(content);
      InsertOutcome(rows, embedding, newId)
    }

    /** `add`: validate, embed, insert under `newId`; nothing is stored when a step fails. */
    method Add(projectId: string, content: string, metadata: Option<string>, newId: string, now: string)
      returns (r: Result<string, Error>)
      requires Valid()
      modifies db
      ensures Valid()
      ensures r == AddOutcome(old(db.rows), content, newId)
      ensures db.ftsSchema == old(db.ftsSchema)
      ensures r.Ok? ==> embed(content).Ok?
                        && Stored(old(db.rows), newId, projectId, content, embed(content).value, metadata, now)
      ensures r.Err? ==> db.rows == old(db.rows) && db.fts == old(db.fts)
    {
      var valid := ValidateInputLength(content);
      if valid.Err? {
        return Err(valid.error);
      }
      var embedding := embed(content);
      if embedding.Err? {
        return Err(embedding.error);
      }
      var id := db.Insert(projectId, content, embedding.value, metadata, newId, now);
      r := Lift(id);
    }

    /** The memories `find_similar` reports for an embedding, at the configured threshold. */
    function Similar(rows: seq<Row>, projectId: string, embedding: seq<bv32>): Result<seq<Memory>, Error>
      reads config
    {
      Lift(VectorSearch.FindSimilarResult(rows, projectId, embedding, config.similarityThreshold, db.sqrt))
    }

    /** What `add_with_conflict` returns against the table `rows`. */
    function AddWithConflictOutcome(rows: seq<Row>, projectId: string, content: string, force: bool, newId: string)
      : Result<AddResult, Error>
      reads config
    {
      var _ :- ValidateInputLength(content);
      var embedding :- embed(content);
      if force then
        var id :- InsertOutcome(rows, embedding, newId);
        Ok(Added(id))
      else UnlessSimilarOutcome(rows, projectId, content, embedding, newId)
    }

    /** The path without `force`, once the content is embedded: conflicts, or the insert when there are none. */
    function UnlessSimilarOutcome(rows: seq<Row>, projectId: string, content: string, embedding: seq<bv32>,
                                  newId: string): Result<AddResult, Error>
      reads config
    {
      var similar :- Similar(rows, projectId, embedding);
      var conflicts := ConflictsOf(similar);
      if conflicts == [] then
        var id :- InsertOutcome(rows, embedding, newId);
        Ok(Added(id))
      else Ok(Conflicts(content, conflicts))
    }

    /**
     * `add_with_conflict`: with `force`, insert; otherwise report the
     * memories at or above the similarity threshold, inserting only when
     * there are none. The table changes only when the result is `Added`.
     */
    method AddWithConflict(projectId: string, content: string, metadata: Option<string>, force: bool,
                           newId: string, now: string) returns (r: Result<AddResult, Error>)
      requires Valid()
      modifies db
      ensures Valid()
      ensures r == AddWithConflictOutcome(old(db.rows), projectId, content, force, newId)
      ensures db.ftsSchema == old(db.ftsSchema)
      ensures r.Ok? && r.value.Added? ==>
                embed(content).Ok?
                && Stored(old(db.rows), newId, projectId, content, embed(content).value, metadata, now)
      ensures !(r.Ok? && r.value.Added?) ==> db.rows == old(db.rows) && db.fts == old(db.fts)
    {
      ghost var before := db.rows;
      var valid := ValidateInputLength(content);
      if valid.Err? {
        return Err(valid.error);
      }
      if force {
        var forced := embed(content);
        if forced.Err? {
          return Err(forced.error);
        }
        r := InsertAdded(projectId, content, forced.value, metadata, newId, now);
        return;
      }
      var embedding := embed(content);
      if embedding.Err? {
        return Err(embedding.error);
      }
      r := AddUnlessSimilar(projectId, content, embedding.value, metadata, newId, now);
    }

    /** The rest of `add_with_conflict` without `force`: `find_similar`, then insert only when it finds nothing. */
    method AddUnlessSimilar(projectId: string, content: string, embedding: seq<bv32>, metadata: Option<string>,
                            newId: string, now: string) returns (r: Result<AddResult, Error>)
      requires Valid()
      modifies db
      ensures Valid()
      ensures r == UnlessSimilarOutcome(old(db.rows), projectId, content, embedding, newId)
      ensures db.ftsSchema == old(db.ftsSchema)
      ensures r.Ok? && r.value.Added? ==> Stored(old(db.rows), newId, projectId, content, embedding, metadata, now)
      ensures !(r.Ok? && r.value.Added?) ==> db.rows == old(db.rows) && db.fts == old(db.fts)
    {
      ghost var before := db.rows;
      var similar := db.FindSimilar(projectId, embedding, config.similarityThreshold);
      assert Lift(similar) == Similar(before, projectId, embedding);
      if similar.Err? {
        return Err(FromDbError(similar.error));
      }
      var conflicts := ConflictsOf(similar.value);
      if conflicts == [] {
        r := InsertAdded(projectId, content, embedding, metadata, newId, now);
        return;
      }
      return Ok(Conflicts(content, conflicts));
    }

    /** The insert that ends both adding paths, its id reported as `Added`. */
    method InsertAdded(projectId: string, content: string, embedding: seq<bv32>, metadata: Option<string>,
                       newId: string, now: string) returns (r: Result<AddResult, Error>)
      requires Valid()
      modifies db
      ensures Valid() && db.ftsSchema == old(db.ftsSchema)
      ensures InsertOutcome(old(db.rows), embedding, newId).Err? ==>
                r == Err(InsertOutcome(old(db.rows), embedding, newId).error)
                && db.rows == old(db.rows) && db.fts == old(db.fts)
      ensures InsertOutcome(old(db.rows), embedding, newId).Ok? ==>
                r == Ok(Added(InsertOutcome(old(db.rows), embedding, newId).value))
                && Stored(old(db.rows), newId, projectId, content, embedding, metadata, now)
    {
      ghost var before := db.rows;
      var id := db.Insert(projectId, content, embedding, metadata, newId, now);
      assert Lift(id) == InsertOutcome(before, embedding, newId);
      if id.Err? {
        return Err(FromDbError(id.error));
      }
      return Ok(Added(id.value));
    }

    /**
     * Reported conflicts are the proposed content and a non-empty list of
     * memories of the same project scoring at least the threshold, in the
     * order `find_similar` ranked them.
     */
    lemma {:induction false} ConflictsAreSimilar(rows: seq<Row>, projectId: string, content: string, force: bool, newId: string)
      requires AddWithConflictOutcome(rows, projectId, content, force, newId).Ok?
      requires AddWithConflictOutcome(rows, projectId, content, force, newId).value.Conflicts?
      ensures !force && embed(content).Ok? && Similar(rows, projectId, embed(content).value).Ok?
              && var r := AddWithConflictOutcome(rows, projectId, content, force, newId).value;
                 var similar := Similar(rows, projectId, embed(content).value).value;
                 r.proposed == content && r.conflicts != [] && r.conflicts == ConflictsOf(similar)
                 && (forall m :: m in similar ==>
                       m.projectId == projectId && Floats.AtLeast(Score(m), config.similarityThreshold))
                 && Sorting.SortedBy(similar, VectorSearch.ScoreBefore)
    {
      ConflictOutcome(rows, projectId, content, force, newId);
      var embedding := embed(content).value;
      VectorSearch.FindSimilarProperties(rows, projectId, embedding, config.similarityThreshold, db.sqrt);
    }

    /** Conflicts come only from the path without `force`, from a similarity search that found some. */
    lemma {:induction false} ConflictOutcome(rows: seq<Row>, projectId: string, content: string, force: bool, newId: string)
      requires AddWithConflictOutcome(rows, projectId, content, force, newId).Ok?
      requires AddWithConflictOutcome(rows, projectId, content, force, newId).value.Conflicts?
      ensures !force && embed(content).Ok? && Similar(rows, projectId, embed(content).value).Ok?
              && var similar := Similar(rows, projectId, embed(content).value).value;
                 similar != []
                 && AddWithConflictOutcome(rows, projectId, content, force, newId)
                    == Ok(Conflicts(content, ConflictsOf(similar)))
    {
      ConflictPath(rows, projectId, content, force, newId);
      UnlessSimilarConflicts(rows, projectId, content, embed(content).value, newId);
    }

    /** Conflicts are reported only past validation and embedding, on the path without `force`. */
    lemma {:induction false} ConflictPath(rows: seq<Row>, projectId: string, content: string, force: bool, newId: string)
      requires AddWithConflictOutcome(rows, projectId, content, force, newId).Ok?
      requires AddWithConflictOutcome(rows, projectId, content, force, newId).value.Conflicts?
      ensures !force && embed(content).Ok?
              && AddWithConflictOutcome(rows, projectId, content, force, newId)
                 == UnlessSimilarOutcome(rows, projectId, content, embed(content).value, newId)
    {
      var valid := ValidateInputLength(content);
      var embedding := embed(content);
      assert valid.Ok? && embedding.Ok?;
    }

    /** Past embedding, conflicts are the converted memories of a similarity search that found some. */
    lemma {:induction false} UnlessSimilarConflicts(rows: seq<Row>, projectId: string, content: string,
                                                    embedding: seq<bv32>, newId: string)
      requires UnlessSimilarOutcome(rows, projectId, content, embedding, newId).Ok?
      requires UnlessSimilarOutcome(rows, projectId, content, embedding, newId).value.Conflicts?
      ensures Similar(rows, projectId, embedding).Ok? && Similar(rows, projectId, embedding).value != []
              && UnlessSimilarOutcome(rows, projectId, content, embedding, newId)
                 == Ok(Conflicts(content, ConflictsOf(Similar(rows, projectId, embedding).value)))
    {
      var similar := Similar(rows, projectId, embedding);
      assert similar.Ok?;
    }

    /** With `force`, a valid content whose embedding stores under a fresh id is always added. */
    lemma {:induction false} ForceAdds(rows: seq<Row>, projectId: string, content: string, newId: string)
      requires ValidateInputLength(content).Ok? && embed(content).Ok?
      requires Embedding.VecToBlob(embed(content).value).Ok? && Storage.IndexOfId(rows, newId).None?
      ensures AddWithConflictOutcome(rows, projectId, content, true, newId) == Ok(Added(newId))
    {
    }

    /**
     * Without `force`, the content is added exactly when no memory of the
     * project reaches the threshold (and the insert itself succeeds).
     */
    lemma {:induction false} AddedWhenNothingSimilar(rows: seq<Row>, projectId: string, content: string, newId: string)
      requires ValidateInputLength(content).Ok? && embed(content).Ok?
      requires Similar(rows, projectId, embed(content).value).Ok?
      requires InsertOutcome(rows, embed(content).value, newId).Ok?
      ensures AddWithConflictOutcome(rows, projectId, content, false, newId).Ok?
      ensures AddWithConflictOutcome(rows, projectId, content, false, newId).value.Added?
              <==> Similar(rows, projectId, embed(content).value).value == []
    {
    }

    /** `get`. */
    function Get(id: string): (r: Result<Option<Memory>, Error>)
      reads db
      ensures r.Ok?
      ensures r.value.None? <==> forall i :: 0 <= i < |db.rows| ==> db.rows[i].id != id
      ensures r.value.Some? ==> r.value.value.id == id && r.value.value.similarity.None?
    {
      Ok(db.Get(id))
    }

    /** `list`: the limit is checked before the database is asked. */
    function List(projectId: string, limit: nat): (r: Result<seq<Memory>, Error>)
      reads db
      ensures CheckLimit(limit).Err? ==> r == Err(CheckLimit(limit).error)
      ensures CheckLimit(limit).Ok? ==> r.Ok? && r == Lift(Storage.ListResult(db.rows, projectId, limit))
    {
      var _ :- CheckLimit(limit);
      Lift(db.List(projectId, limit))
    }

    /** What `update` returns against the table `rows`. */
    function UpdateOutcome(rows: seq<Row>, id: string, content: string): Result<(), Error>
    {
      var _ :- ValidateInputLength(content);
      var embedding :- embed(content);
      UpdateStatus(rows, id, embedding)
    }

    /**
     * `update`: validate, embed, overwrite. On success the memory has the new
     * content and `updated_at`, and keeps its id, project, metadata and
     * `created_at`; on failure nothing changes.
     */
    method Update(id: string, content: string, now: string) returns (r: Result<(), Error>)
      requires Valid()
      modifies db
      ensures Valid()
      ensures r == UpdateOutcome(old(db.rows), id, content)
      ensures r.Ok? ==> old(db.Get(id)).Some?
                        && db.Get(id) == Some(old(db.Get(id)).value.(content := content, updatedAt := now))
      ensures r.Ok? ==> embed(content).Ok? && Embedding.VecToBlob(embed(content).value).Ok?
                        && Storage.IndexOfId(old(db.rows), id).Some?
                        && var i := Storage.IndexOfId(old(db.rows), id).value;
                           db.rows == old(db.rows)[i := old(db.rows)[i].(content := content,
                                        embedding := Embedding.VecToBlob(embed(content).value).value,
                                        updatedAt := now)]
      ensures db.ftsSchema == old(db.ftsSchema)
      ensures r.Err? ==> db.rows == old(db.rows) && db.fts == old(db.fts)
    {
      var valid := ValidateInputLength(content);
      if valid.Err? {
        return Err(valid.error);
      }
      var embedding := embed(content);
      if embedding.Err? {
        return Err(embedding.error);
      }
      ghost var before := db.rows;
      var updated := db.Update(id, content, embedding.value, now);
      r := Lift(updated);
      if r.Ok? {
        var i := Storage.IndexOfId(before, id).value;
        IndexOfDistinct(before, id, i);
        IndexOfDistinct(db.rows, id, i);
      }
    }

    /** `delete`: whether the memory existed; afterwards it does not. */
    method Delete(id: string) returns (r: Result<bool, Error>)
      requires Valid()
      modifies db
      ensures Valid()
      ensures r.Ok? && (r.value <==> old(db.Get(id)).Some?)
      ensures db.Get(id) == None
      ensures r.value ==> Storage.IndexOfId(old(db.rows), id).Some?
                          && var i := Storage.IndexOfId(old(db.rows), id).value;
                             db.rows == old(db.rows)[..i] + old(db.rows)[i + 1..]
      ensures !r.value ==> db.rows == old(db.rows) && db.fts == old(db.fts)
      ensures db.ftsSchema == old(db.ftsSchema)
    {
      var existed := db.Delete(id);
      return Ok(existed);
    }

    /** What `search` returns for the current table. */
    function SearchOutcome(projectId: string, query: string, limit: nat, weight: Floats.Float, nowNs: int,
                           show: Floats.Float -> string): Result<seq<Memory>, Error>
      reads db`rows
    {
      var checks := SearchChecks(query, limit, weight, show);
      var hits := SemanticHits(projectId, Text.Trim(query), limit);
      if checks.Err? then Err(checks.error)
      else if hits.Err? then Err(hits.error)
      else Reranked(hits.value, weight.value, Temporal.DEFAULT_DECAY, nowNs, exp)
    }

    /** The query `q` embedded and searched for the best `n` memories of the project. */
    function SemanticHits(projectId: string, q: string, n: nat): Result<seq<Memory>, Error>
      reads db`rows
    {
      var embedding :- embed(q);
      Lift(VectorSearch.SearchResult(db.rows, projectId, embedding, n, db.sqrt))
    }

    /** Semantic hits are at most `n` memories of the project, highest score first. */
    lemma {:induction false} SemanticHitsProperties(projectId: string, q: string, n: nat)
      requires SemanticHits(projectId, q, n).Ok?
      ensures var r := SemanticHits(projectId, q, n).value;
              |r| <= n
              && (forall m :: m in r ==> m.projectId == projectId)
              && Sorting.SortedBy(r, VectorSearch.ScoreBefore)
    {
      var embedding := embed(q).value;
      VectorSearch.SearchProjectOnly(db.rows, projectId, embedding, n, db.sqrt);
      VectorSearch.SearchTopK(db.rows, projectId, embedding, n, db.sqrt);
    }

    /**
     * `search`: the limit, then the trimmed query, then the weight; embed
     * and search; with a positive weight, reweigh every result and re-sort.
     */
    method Search(projectId: string, query: string, limit: nat, weight: Floats.Float, nowNs: int,
                  show: Floats.Float -> string) returns (r: Result<seq<Memory>, Error>)
      requires Valid()
      ensures r == SearchOutcome(projectId, query, limit, weight, nowNs, show)
    {
      var limitOk := CheckLimit(limit);
      if limitOk.Err? {
        return Err(limitOk.error);
      }
      var q := Text.Trim(query);
      var valid := ValidateInputLength(q);
      if valid.Err? {
        return Err(valid.error);
      }
      var weightOk := CheckRecencyWeight(weight, show);
      if weightOk.Err? {
        return Err(weightOk.error);
      }
      var embedding := embed(q);
      if embedding.Err? {
        return Err(embedding.error);
      }
      var found := db.Search(projectId, embedding.value, limit);
      if found.Err? {
        return Err(FromDbError(found.error));
      }
      r := Rerank(found.value, weight.value, nowNs);
    }

    /** Step 6 of both searches: with a positive weight, reweigh every result and re-sort by score. */
    method Rerank(memories: seq<Memory>, weight: real, nowNs: int) returns (r: Result<seq<Memory>, Error>)
      ensures r == Reranked(memories, weight, Temporal.DEFAULT_DECAY, nowNs, exp)
    {
      if weight <= 0.0 {
        return Ok(memories);
      }
      var decay := Temporal.New().value;
      var reweighed := ReweighEach(memories, weight, decay, nowNs);
      if reweighed.Err? {
        return Err(reweighed.error);
      }
      return Ok(Sorting.SortBy(reweighed.value, VectorSearch.ScoreBefore));
    }

    /** The `for memory in memories.iter_mut()` loop of both searches. */
    method ReweighEach(memories: seq<Memory>, weight: real, c: Temporal.DecayConfig, nowNs: int)
      returns (r: Result<seq<Memory>, Error>)
      ensures r == ReweighAll(memories, weight, c, nowNs, exp)
    {
      ghost var f := Reweighing(weight, c, nowNs, exp);
      var ms := memories;
      var i := 0;
      while i < |ms|
        invariant 0 <= i <= |ms| == |memories|
        invariant ms[i..] == memories[i..]
        invariant MapAll(memories[..i], f) == Ok(ms[..i])
      {
        assert ms[i] == memories[i];
        var reweighed := ReweighOne(ms[i], weight, c, nowNs);
        assert reweighed == f(memories[i]);
        if reweighed.Err? {
          MapAllStops(memories, i, f);
          return Err(reweighed.error);
        }
        MapAllExtends(memories, i, f);
        ms := ms[i := reweighed.value];
        assert ms[..i + 1] == ms[..i] + [ms[i]];
        i := i + 1;
      }
      assert memories[..i] == memories && ms[..i] == ms;
      return Ok(ms);
    }

    /** The body of the recency loop for one memory: parse its timestamp, then blend its score. */
    method ReweighOne(m: Memory, weight: real, c: Temporal.DecayConfig, nowNs: int) returns (r: Result<Memory, Error>)
      ensures r == Reweigh(m, weight, c, nowNs, exp)
    {
      var createdNs := Rfc3339.Parse(m.createdAt);
      if createdNs.Err? {
        return Err(InvalidTimestamp(m.id, m.createdAt, Rfc3339.ErrorMessage(createdNs.error)));
      }
      var score := Temporal.ApplyRecencyWeight(Score(m), createdNs.value, nowNs, weight, c, exp);
      r := Ok(m.(similarity := Some(score)));
    }

    /**
     * `search` results: at most `limit`, all of the project, highest score
     * first; with weight zero exactly the semantic hits, unchanged.
     */
    lemma {:induction false} SearchProperties(projectId: string, query: string, limit: nat, weight: Floats.Float, nowNs: int,
                           show: Floats.Float -> string)
      requires SearchOutcome(projectId, query, limit, weight, nowNs, show).Ok?
      ensures var r := SearchOutcome(projectId, query, limit, weight, nowNs, show).value;
              |r| <= limit
              && (forall m :: m in r ==> m.projectId == projectId)
              && Sorting.SortedBy(r, VectorSearch.ScoreBefore)
              && (weight == Floats.Finite(0.0) ==> r == SemanticHits(projectId, Text.Trim(query), limit).value)
    {
      SearchOutcomeSteps(projectId, query, limit, weight, nowNs, show);
      var found := SemanticHits(projectId, Text.Trim(query), limit).value;
      SemanticHitsProperties(projectId, Text.Trim(query), limit);
      RerankedKeeps(found, weight.value, Temporal.DEFAULT_DECAY, nowNs, exp, projectId);
    }

    /** A successful search is the reranking of the semantic hits, after checks that passed. */
    lemma {:induction false} SearchOutcomeSteps(projectId: string, query: string, limit: nat, weight: Floats.Float,
                                                nowNs: int, show: Floats.Float -> string)
      requires SearchOutcome(projectId, query, limit, weight, nowNs, show).Ok?
      ensures SearchChecks(query, limit, weight, show).Ok? && weight.Finite?
              && SemanticHits(projectId, Text.Trim(query), limit).Ok?
              && SearchOutcome(projectId, query, limit, weight, nowNs, show)
                 == Reranked(SemanticHits(projectId, Text.Trim(query), limit).value, weight.value,
                             Temporal.DEFAULT_DECAY, nowNs, exp)
    {
      SearchOutcomePassed(projectId, query, limit, weight, nowNs, show);
      SearchCheckOrder(query, limit, weight, show);
    }

    /** A successful search passed its checks and found its semantic hits. */
    lemma {:induction false} SearchOutcomePassed(projectId: string, query: string, limit: nat, weight: Floats.Float,
                                                 nowNs: int, show: Floats.Float -> string)
      requires SearchOutcome(projectId, query, limit, weight, nowNs, show).Ok?
      ensures SearchChecks(query, limit, weight, show).Ok? && SemanticHits(projectId, Text.Trim(query), limit).Ok?
    {
      var checks := SearchChecks(query, limit, weight, show);
      var hits := SemanticHits(projectId, Text.Trim(query), limit);
      assert !checks.Err? && !hits.Err?;
    }

    /**
     * `search_hybrid`: the query, the weight, then the limit; then the
     * ranking of `HybridRanking`. `rank` is the engine's BM25 scoring.
     */
    method SearchHybrid(projectId: string, query: string, limit: nat, weight: Floats.Float, nowNs: int,
                        show: Floats.Float -> string, rank: (string, map<nat, FtsIndex.FtsEntry>) -> map<nat, real>)
      returns (r: Result<seq<Memory>, Error>)
      requires Valid()
      modifies db
      ensures Valid() && db.rows == old(db.rows)
      ensures HybridChecks(query, limit, weight, show).Err? ==>
                r == Err(HybridChecks(query, limit, weight, show).error) && db.fts == old(db.fts)
      ensures HybridChecks(query, limit, weight, show).Ok?
              && SemanticHits(projectId, Text.Trim(query), CandidatePool(limit)).Err? ==>
                r == Err(SemanticHits(projectId, Text.Trim(query), CandidatePool(limit)).error)
      ensures r.Ok? ==>
                HybridChecks(query, limit, weight, show).Ok?
                && SemanticHits(projectId, Text.Trim(query), CandidatePool(limit)).Ok?
                && exists fused ::
                     Rrf.IsFusion(fused, [SemanticHits(projectId, Text.Trim(query), CandidatePool(limit)).value,
                                          FtsIndex.Bm25Result(db.rows, db.fts, Text.Trim(query), projectId,
                                                              CandidatePool(limit), rank)],
                                  Rrf.DEFAULT_CONFIG.k)
                     && r == Finish(fused, limit, weight.value, Temporal.DEFAULT_DECAY, nowNs, exp)
      ensures r.Ok? ==> |r.value| <= limit && forall m :: m in r.value ==> m.projectId == projectId
      ensures HybridChecks(query, limit, weight, show).Ok?
              && SemanticHits(projectId, Text.Trim(query), CandidatePool(limit)).Ok? ==>
                r.Ok? || r.error.InvalidTimestamp?
    {
      var q := Text.Trim(query);
      var valid := ValidateInputLength(q);
      if valid.Err? {
        return Err(valid.error);
      }
      var weightOk := CheckRecencyWeight(weight, show);
      if weightOk.Err? {
        return Err(weightOk.error);
      }
      var limitOk := CheckLimit(limit);
      if limitOk.Err? {
        return Err(limitOk.error);
      }
      assert HybridChecks(query, limit, weight, show).Ok?;
      r := HybridRanking(projectId, q, limit, weight.value, nowNs, rank);
    }

    /**
     * The ranking of `search_hybrid` once its checks pass: embed; rank a
     * candidate pool both semantically and by BM25; fuse the two with RRF;
     * reweigh when the weight is positive; keep the first `limit`.
     */
    method HybridRanking(projectId: string, q: string, limit: nat, weight: real, nowNs: int,
                         rank: (string, map<nat, FtsIndex.FtsEntry>) -> map<nat, real>)
      returns (r: Result<seq<Memory>, Error>)
      requires Valid()
      modifies db
      ensures Valid() && db.rows == old(db.rows)
      ensures SemanticHits(projectId, q, CandidatePool(limit)).Err? ==>
                r == Err(SemanticHits(projectId, q, CandidatePool(limit)).error)
      ensures r.Ok? ==>
                SemanticHits(projectId, q, CandidatePool(limit)).Ok?
                && exists fused ::
                     Rrf.IsFusion(fused, [SemanticHits(projectId, q, CandidatePool(limit)).value,
                                          FtsIndex.Bm25Result(db.rows, db.fts, q, projectId, CandidatePool(limit), rank)],
                                  Rrf.DEFAULT_CONFIG.k)
                     && r == Finish(fused, limit, weight, Temporal.DEFAULT_DECAY, nowNs, exp)
      ensures r.Ok? ==> |r.value| <= limit && forall m :: m in r.value ==> m.projectId == projectId
      ensures SemanticHits(projectId, q, CandidatePool(limit)).Ok? ==>
                r.Ok? || r.error.InvalidTimestamp?
    {
      var pool := CandidatePool(limit);
      var embedding := embed(q);
      if embedding.Err? {
        assert SemanticHits(projectId, q, pool) == Err(embedding.error);
        return Err(embedding.error);
      }
      var sem := db.Search(projectId, embedding.value, pool);
      assert Lift(sem) == SemanticHits(projectId, q, pool);
      if sem.Err? {
        return Err(FromDbError(sem.error));
      }
      VectorSearch.SearchProjectOnly(db.rows, projectId, embedding.value, pool, db.sqrt);
      assert sem.value == SemanticHits(projectId, q, pool).value;
      r := FuseWithBm25(projectId, q, sem.value, limit, weight, nowNs, rank);
    }

    /**
     * Steps 4 to 7 of `search_hybrid`, given the semantic hits: the BM25
     * search over the candidate pool, which cannot fail once the pool is a
     * valid limit, then fusion and finish.
     */
    method FuseWithBm25(projectId: string, q: string, semantic: seq<Memory>, limit: nat, weight: real, nowNs: int,
                        rank: (string, map<nat, FtsIndex.FtsEntry>) -> map<nat, real>)
      returns (r: Result<seq<Memory>, Error>)
      requires Valid()
      requires forall m :: m in semantic ==> m.projectId == projectId
      modifies db
      ensures Valid() && db.rows == old(db.rows)
      ensures exists fused ::
                Rrf.IsFusion(fused, [semantic, FtsIndex.Bm25Result(db.rows, db.fts, q, projectId, CandidatePool(limit), rank)],
                             Rrf.DEFAULT_CONFIG.k)
                && r == Finish(fused, limit, weight, Temporal.DEFAULT_DECAY, nowNs, exp)
      ensures r.Ok? ==> |r.value| <= limit && forall m :: m in r.value ==> m.projectId == projectId
      ensures r.Ok? || r.error.InvalidTimestamp?
    {
      var pool := CandidatePool(limit);
      assert VectorSearch.ValidateLimit(pool).Ok?;
      var bm25 := db.SearchBm25(q, projectId, pool, rank);
      match bm25
      case Err(e) => return Err(FromDbError(e));
      case Ok(lexical) =>
        FtsIndex.Bm25ResultProperties(db.rows, db.fts, q, projectId, pool, rank);
        r := FuseAndFinish(projectId, semantic, lexical, limit, weight, nowNs);
    }

    /** Steps 5 to 7 of `search_hybrid`: fuse the two rankings with RRF, then reweigh and truncate. */
    method FuseAndFinish(projectId: string, semantic: seq<Memory>, lexical: seq<Memory>, limit: nat, weight: real,
                         nowNs: int) returns (r: Result<seq<Memory>, Error>)
      requires forall m :: m in semantic ==> m.projectId == projectId
      requires forall m :: m in lexical ==> m.projectId == projectId
      ensures exists fused ::
                Rrf.IsFusion(fused, [semantic, lexical], Rrf.DEFAULT_CONFIG.k)
                && r == Finish(fused, limit, weight, Temporal.DEFAULT_DECAY, nowNs, exp)
      ensures r.Ok? ==> |r.value| <= limit && forall m :: m in r.value ==> m.projectId == projectId
      ensures r.Ok? || r.error.InvalidTimestamp?
    {
      var fused := Rrf.RrfFusion([semantic, lexical], None);
      r := RankFused(fused, limit, weight, nowNs);
      FinishFailsOnlyOnTimestamp(fused, limit, weight, Temporal.DEFAULT_DECAY, nowNs, exp);
      if r.Ok? {
        FinishProperties(fused, semantic, lexical, projectId, limit, weight, Temporal.DEFAULT_DECAY,
                         nowNs, exp);
      }
    }

    /** Steps 6 and 7 of `search_hybrid`: reweigh and re-sort when the weight is positive, then truncate. */
    method RankFused(fused: seq<Memory>, limit: nat, weight: real, nowNs: int) returns (r: Result<seq<Memory>, Error>)
      ensures r == Finish(fused, limit, weight, Temporal.DEFAULT_DECAY, nowNs, exp)
    {
      var results := Rerank(fused, weight, nowNs);
      if results.Err? {
        return Err(results.error);
      }
      r := Ok(Sorting.Take(results.value, limit));
    }
  }

  /** With distinct ids, the row found for `id` is the one that holds it. */
  lemma {:induction false} IndexOfDistinct(rows: seq<Row>, id: string, i: nat)
    requires Storage.DistinctIds(rows) && i < |rows| && rows[i].id == id
    ensures Storage.IndexOfId(rows, id) == Some(i)
  {
  }
}
