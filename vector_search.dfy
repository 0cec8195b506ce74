/**
 * Semantic search over the stored rows (`src/sqlite/search.rs`): limit
 * validation, an exhaustive scan of one project's rows that scores each row
 * by cosine similarity, a stable sort by descending score and a truncation,
 * and the threshold filter `find_similar` applies on top.
 */
module VectorSearch {
  import opened Wrappers
  import opened SqliteTypes
  import opened Floats
  import Text
  import Embedding
  import Sorting

  const MAX_SEARCH_LIMIT: nat := 10000

  /** `validate_limit`. */
  function ValidateLimit(limit: nat): (r: Result<(), DbError>)
    ensures r.Ok? <==> 1 <= limit <= MAX_SEARCH_LIMIT
    ensures r.Err? ==> r.error.InvalidLimit?
    ensures limit == 0 ==> r == Err(InvalidLimit("Limit must be greater than 0"))
  {
    if limit == 0 then Err(InvalidLimit("Limit must be greater than 0"))
    else if limit > MAX_SEARCH_LIMIT then
      Err(InvalidLimit("Limit " + Text.NatToString(limit) + " exceeds maximum allowed ("
                       + Text.NatToString(MAX_SEARCH_LIMIT) + ")"))
    else Ok(())
  }

  /** The comparator `b.similarity.partial_cmp(&a.similarity)`: higher scores first. */
  predicate ScoreBefore(a: Memory, b: Memory)
  {
    Score(a) > Score(b)
  }

  lemma {:induction false} ScoreBeforeIsStrictOrder()
    ensures Sorting.StrictOrder(ScoreBefore)
  {
  }

  /** The rows `WHERE project_id = ?1` selects, in table order. */
  function ProjectRows(rows: seq<Row>, projectId: string): (r: seq<Row>)
    ensures forall i :: 0 <= i < |r| ==> r[i].projectId == projectId
    ensures forall row :: row in r <==> row in rows && row.projectId == projectId
    ensures |r| <= |rows|
  {
    if rows == [] then []
    else
      var last := rows[|rows| - 1];
      assert rows == rows[..|rows| - 1] + [last];
      ProjectRows(rows[..|rows| - 1], projectId) + (if last.projectId == projectId then [last] else [])
  }

  /** One loop iteration: decode the stored BLOB, then score it against the query. */
  function ScoreRow(row: Row, query: seq<bv32>, sqrt: real -> real): (r: Result<Memory, DbError>)
    ensures r.Ok? <==> Embedding.DecodeBlob(row.embedding).Ok?
                       && Embedding.CosineSimilarity(query, Embedding.DecodeBlob(row.embedding).value, sqrt).Ok?
    ensures Embedding.DecodeBlob(row.embedding).Err? ==> r == Err(Embedding.DecodeBlob(row.embedding).error)
    ensures r.Ok? ==> r.value == AsMemory(row).(similarity :=
              Some(Embedding.CosineSimilarity(query, Embedding.DecodeBlob(row.embedding).value, sqrt).value))
  {
    match Embedding.DecodeBlob(row.embedding)
    case Err(e) => Err(e)
    case Ok(stored) =>
      match Embedding.CosineSimilarity(query, stored, sqrt)
      case Err(e) => Err(e)
      case Ok(c) => Ok(AsMemory(row).(similarity := Some(c)))
  }

  /** The scan: every row scored in order, the first failing row aborting with its error. */
  function ScoreAll(rows: seq<Row>, query: seq<bv32>, sqrt: real -> real): (r: Result<seq<Memory>, DbError>)
    ensures r.Ok? ==> |r.value| == |rows|
  {
    MapAll(rows, row => ScoreRow(row, query, sqrt))
  }

  /**
   * The scan succeeds exactly when every row scores, and then holds one
   * scored memory per row, in table order; otherwise it reports the first
   * failing row's error.
   */
  lemma {:induction false} ScoreAllMeaning(rows: seq<Row>, query: seq<bv32>, sqrt: real -> real)
    ensures var r := ScoreAll(rows, query, sqrt);
            (r.Ok? <==> forall i :: 0 <= i < |rows| ==> ScoreRow(rows[i], query, sqrt).Ok?)
            && (r.Ok? ==> forall i :: 0 <= i < |rows| ==> r.value[i] == ScoreRow(rows[i], query, sqrt).value)
            && (r.Err? ==> exists i :: 0 <= i < |rows| && ScoreRow(rows[i], query, sqrt) == Err(r.error)
                                       && forall j :: 0 <= j < i ==> ScoreRow(rows[j], query, sqrt).Ok?)
  {
    MapAllMeaning(rows, row => ScoreRow(row, query, sqrt));
  }

  /** The body of the scan loop for one row: decode its BLOB, then score it. */
  method ScoreOne(row: Row, query: seq<bv32>, sqrt: real -> real) returns (r: Result<Memory, DbError>)
    ensures r == ScoreRow(row, query, sqrt)
  {
    var stored := Embedding.BlobToVec(row.embedding);
    if stored.Err? {
      return Err(stored.error);
    }
    var similarity := Embedding.CosineSimilarity(query, stored.value, sqrt);
    if similarity.Err? {
      return Err(similarity.error);
    }
    r := Ok(AsMemory(row).(similarity := Some(similarity.value)));
  }

  /** What `search` returns: validate, scan the project, sort by score descending, truncate. */
  function SearchResult(rows: seq<Row>, projectId: string, query: seq<bv32>, limit: nat, sqrt: real -> real)
    : (r: Result<seq<Memory>, DbError>)
    ensures ValidateLimit(limit).Err? ==> r == Err(ValidateLimit(limit).error)
    ensures ValidateLimit(limit).Ok? ==>
              (r.Ok? <==> ScoreAll(ProjectRows(rows, projectId), query, sqrt).Ok?)
    ensures ValidateLimit(limit).Ok? && r.Err? ==>
              r.error == ScoreAll(ProjectRows(rows, projectId), query, sqrt).error
    ensures r.Ok? ==> var n := |ProjectRows(rows, projectId)|; |r.value| == if limit < n then limit else n
  {
    match ValidateLimit(limit)
    case Err(e) => Err(e)
    case Ok(_) =>
      match ScoreAll(ProjectRows(rows, projectId), query, sqrt)
      case Err(e) => Err(e)
      case Ok(ms) => Ok(Sorting.Take(Sorting.SortBy(ms, ScoreBefore), limit))
  }

  /** `Database::search` over the table's rows: the scan loop pushes one scored memory per row. */
  method Search(rows: seq<Row>, projectId: string, query: seq<bv32>, limit: nat, sqrt: real -> real)
    returns (r: Result<seq<Memory>, DbError>)
    ensures r == SearchResult(rows, projectId, query, limit, sqrt)
  {
    var valid := ValidateLimit(limit);
    if valid.Err? {
      return Err(valid.error);
    }
    var scanned := ProjectRows(rows, projectId);
    var memories: seq<Memory> := [];
    var i := 0;
    while i < |scanned|
      invariant 0 <= i <= |scanned|
      invariant ScoreAll(scanned[..i], query, sqrt) == Ok(memories)
    {
      var scored := ScoreOne(scanned[i], query, sqrt);
      if scored.Err? {
        MapAllStops(scanned, i, row => ScoreRow(row, query, sqrt));
        return Err(scored.error);
      }
      MapAllExtends(scanned, i, row => ScoreRow(row, query, sqrt));
      memories := memories + [scored.value];
      i := i + 1;
    }
    assert scanned[..i] == scanned;
    memories := Sorting.SortBy(memories, ScoreBefore);
    memories := Sorting.Take(memories, limit);
    return Ok(memories);
  }

  /** Every result belongs to the requested project. */
  lemma {:induction false} SearchProjectOnly(rows: seq<Row>, projectId: string, query: seq<bv32>, limit: nat, sqrt: real -> real)
    requires SearchResult(rows, projectId, query, limit, sqrt).Ok?
    ensures forall m :: m in SearchResult(rows, projectId, query, limit, sqrt).value ==> m.projectId == projectId
  {
    var scanned := ProjectRows(rows, projectId);
    var ms := ScoreAll(scanned, query, sqrt).value;
    ScoreAllMeaning(scanned, query, sqrt);
    var ranked := Sorting.SortBy(ms, ScoreBefore);
    forall m | m in SearchResult(rows, projectId, query, limit, sqrt).value
      ensures m.projectId == projectId
    {
      var k :| 0 <= k < |ranked| && ranked[k] == m;
      assert m in multiset(ranked);
      var i :| 0 <= i < |ms| && ms[i] == m;
      assert ScoreRow(scanned[i], query, sqrt).value == m;
    }
  }

  /**
   * The result is ordered by non-increasing score and is a top-`limit` prefix:
   * each result is a scored row, and no scored row left out scores higher than
   * any result.
   */
  lemma {:induction false} SearchTopK(rows: seq<Row>, projectId: string, query: seq<bv32>, limit: nat, sqrt: real -> real)
    requires SearchResult(rows, projectId, query, limit, sqrt).Ok?
    ensures var r := SearchResult(rows, projectId, query, limit, sqrt).value;
            var ms := ScoreAll(ProjectRows(rows, projectId), query, sqrt).value;
            Sorting.SortedBy(r, ScoreBefore)
            && multiset(r) <= multiset(ms)
            && forall m, i :: m in multiset(ms) - multiset(r) && 0 <= i < |r| ==> Score(m) <= Score(r[i])
  {
    var ms := ScoreAll(ProjectRows(rows, projectId), query, sqrt).value;
    ScoreBeforeIsStrictOrder();
    Sorting.SortBySorted(ms, ScoreBefore);
    Sorting.TakeSortedIsTop(Sorting.SortBy(ms, ScoreBefore), limit, ScoreBefore);
  }

  /**
   * A row whose BLOB does not decode, or whose cosine fails, makes the whole
   * search fail with that row's error when every earlier row scored.
   */
  lemma {:induction false} SearchAbortsOnBadRow(rows: seq<Row>, projectId: string, query: seq<bv32>, limit: nat,
                             sqrt: real -> real, k: nat)
    requires 1 <= limit <= MAX_SEARCH_LIMIT
    requires k < |ProjectRows(rows, projectId)|
    requires ScoreRow(ProjectRows(rows, projectId)[k], query, sqrt).Err?
    requires forall j :: 0 <= j < k ==> ScoreRow(ProjectRows(rows, projectId)[j], query, sqrt).Ok?
    ensures SearchResult(rows, projectId, query, limit, sqrt)
            == Err(ScoreRow(ProjectRows(rows, projectId)[k], query, sqrt).error)
  {
    MapAllFirstError(ProjectRows(rows, projectId), k, row => ScoreRow(row, query, sqrt));
  }

  /** The memories of `ms` scoring at least `threshold` (`>=` on `f64`), in their order. */
  function AtOrAbove(ms: seq<Memory>, threshold: Float): (r: seq<Memory>)
    ensures forall m :: m in r <==> m in ms && AtLeast(Score(m), threshold)
    ensures |r| <= |ms|
  {
    if ms == [] then []
    else
      var last := ms[|ms| - 1];
      assert ms == ms[..|ms| - 1] + [last];
      AtOrAbove(ms[..|ms| - 1], threshold) + (if AtLeast(Score(last), threshold) then [last] else [])
  }

  /** Filtering keeps a score-sorted list sorted. */
  lemma {:induction false} AtOrAboveSorted(ms: seq<Memory>, threshold: Float)
    requires Sorting.SortedBy(ms, ScoreBefore)
    ensures Sorting.SortedBy(AtOrAbove(ms, threshold), ScoreBefore)
  {
    if ms != [] {
      var init := ms[..|ms| - 1];
      var last := ms[|ms| - 1];
      AtOrAboveSorted(init, threshold);
      var f := AtOrAbove(init, threshold);
      forall x | x in f ensures !ScoreBefore(last, x) {
        var k :| 0 <= k < |init| && init[k] == x;
        assert ms[k] == x;
      }
    }
  }

  /** What `find_similar` returns: the full top-10000 search, keeping scores `>= threshold`. */
  function FindSimilarResult(rows: seq<Row>, projectId: string, query: seq<bv32>, threshold: Float,
                             sqrt: real -> real): (r: Result<seq<Memory>, DbError>)
    ensures r.Ok? <==> ScoreAll(ProjectRows(rows, projectId), query, sqrt).Ok?
    ensures r.Ok? ==> forall m :: m in r.value <==>
              m in SearchResult(rows, projectId, query, MAX_SEARCH_LIMIT, sqrt).value && AtLeast(Score(m), threshold)
  {
    match SearchResult(rows, projectId, query, MAX_SEARCH_LIMIT, sqrt)
    case Err(e) => Err(e)
    case Ok(ms) => Ok(AtOrAbove(ms, threshold))
  }

  /** The similar memories are all from the project, clear the threshold and are ordered by score. */
  lemma {:induction false} FindSimilarProperties(rows: seq<Row>, projectId: string, query: seq<bv32>, threshold: Float,
                              sqrt: real -> real)
    requires FindSimilarResult(rows, projectId, query, threshold, sqrt).Ok?
    ensures var r := FindSimilarResult(rows, projectId, query, threshold, sqrt).value;
            Sorting.SortedBy(r, ScoreBefore)
            && forall m :: m in r ==> m.projectId == projectId && AtLeast(Score(m), threshold)
  {
    SearchTopK(rows, projectId, query, MAX_SEARCH_LIMIT, sqrt);
    SearchProjectOnly(rows, projectId, query, MAX_SEARCH_LIMIT, sqrt);
    AtOrAboveSorted(SearchResult(rows, projectId, query, MAX_SEARCH_LIMIT, sqrt).value, threshold);
  }
}
