/**
 * The storage state machine of `src/sqlite/mod.rs` and `src/sqlite/fts.rs`:
 * the `memories` table and the `memories_fts` index that the triggers keep
 * in step with it, the CRUD operations, the searches, and the migration of
 * an index written by the earlier schema.
 */
module Storage {
  import opened Wrappers
  import opened SqliteTypes
  import opened Floats
  import opened FtsIndex
  import Text
  import Embedding
  import Sorting
  import VectorSearch

  /** `id TEXT PRIMARY KEY`: no two rows share an id. */
  predicate DistinctIds(rows: seq<Row>)
  {
    forall i, j :: 0 <= i < j < |rows| ==> rows[i].id != rows[j].id
  }

  /** Removing a row keeps the other ids distinct, and its own id is gone. */
  lemma {:induction false} RemoveKeepsDistinct(rows: seq<Row>, i: nat, rest: seq<Row>)
    requires DistinctIds(rows) && i < |rows| && rest == rows[..i] + rows[i + 1..]
    ensures DistinctIds(rest)
    ensures forall k :: 0 <= k < |rest| ==> rest[k].id != rows[i].id
  {
    forall k | 0 <= k < |rest| ensures rest[k] == rows[if k < i then k else k + 1] {
    }
  }

  /** The row holding `id`, if any. */
  function IndexOfId(rows: seq<Row>, id: string): (r: Option<nat>)
    ensures r.None? <==> forall i :: 0 <= i < |rows| ==> rows[i].id != id
    ensures r.Some? ==> r.value < |rows| && rows[r.value].id == id
  {
    if rows == [] then None
    else if rows[|rows| - 1].id == id then Some(|rows| - 1)
    else IndexOfId(rows[..|rows| - 1], id)
  }

  /** The rowid SQLite assigns to the next insert: one past the largest in use, or 1. */
  function NextRowid(rows: seq<Row>): (r: nat)
    ensures IncreasingRowids(rows) ==> forall i :: 0 <= i < |rows| ==> rows[i].rowid < r
    ensures r >= 1
  {
    if rows == [] then 1 else rows[|rows| - 1].rowid + 1
  }

  /** What the engine reports for an insert whose id is already taken. */
  const DUPLICATE_ID_MESSAGE: string := "UNIQUE constraint failed: memories.id"

  /** The message `update` reports for an unknown id. */
  function NotFoundMessage(id: string): string
  {
    "No memory found with id: " + id
  }

  /** `ORDER BY created_at DESC`: the later timestamp text comes first. */
  predicate NewerFirst(a: Memory, b: Memory)
  {
    Text.Less(b.createdAt, a.createdAt)
  }

  lemma {:induction false} NewerFirstIsStrictOrder()
    ensures Sorting.StrictOrder(NewerFirst)
  {
    forall a: Memory ensures !NewerFirst(a, a) {
      Text.LessIrreflexive(a.createdAt);
    }
    forall a: Memory, b: Memory, c: Memory | NewerFirst(a, b) && NewerFirst(b, c)
      ensures NewerFirst(a, c)
    {
      Text.LessTransitive(c.createdAt, b.createdAt, a.createdAt);
    }
  }

  function AsMemories(rows: seq<Row>): (r: seq<Memory>)
    ensures |r| == |rows| && forall i :: 0 <= i < |rows| ==> r[i] == AsMemory(rows[i])
  {
    seq(|rows|, i requires 0 <= i < |rows| => AsMemory(rows[i]))
  }

  /** What `list` returns: validate, then the project's rows newest first, at most `limit`. */
  function ListResult(rows: seq<Row>, projectId: string, limit: nat): (r: Result<seq<Memory>, DbError>)
    ensures VectorSearch.ValidateLimit(limit).Err? ==> r == Err(VectorSearch.ValidateLimit(limit).error)
    ensures VectorSearch.ValidateLimit(limit).Ok? ==> r.Ok?
  {
    match VectorSearch.ValidateLimit(limit)
    case Err(e) => Err(e)
    case Ok(_) =>
      Ok(Sorting.Take(Sorting.SortBy(AsMemories(VectorSearch.ProjectRows(rows, projectId)), NewerFirst), limit))
  }

  /**
   * A listing holds `min(limit, rows of the project)` memories of that
   * project, newest first, with no row left out that is newer than one
   * listed.
   */
  lemma {:induction false} ListProperties(rows: seq<Row>, projectId: string, limit: nat)
    requires 1 <= limit <= VectorSearch.MAX_SEARCH_LIMIT
    ensures var r := ListResult(rows, projectId, limit).value;
            var all := AsMemories(VectorSearch.ProjectRows(rows, projectId));
            (|r| == if limit < |all| then limit else |all|)
            && Sorting.SortedBy(r, NewerFirst)
            && (forall m :: m in r ==> m.projectId == projectId && m.similarity.None?)
            && multiset(r) <= multiset(all)
            && forall m, i :: m in multiset(all) - multiset(r) && 0 <= i < |r| ==> !NewerFirst(m, r[i])
  {
    var all := AsMemories(VectorSearch.ProjectRows(rows, projectId));
    var ranked := Sorting.SortBy(all, NewerFirst);
    var r := Sorting.Take(ranked, limit);
    NewerFirstIsStrictOrder();
    Sorting.SortBySorted(all, NewerFirst);
    Sorting.TakeSortedIsTop(ranked, limit, NewerFirst);
    ListedOfProject(all, r, projectId);
  }

  /** What is drawn from the project's memories without `similarity` is too. */
  lemma {:induction false} ListedOfProject(all: seq<Memory>, r: seq<Memory>, projectId: string)
    requires forall k :: 0 <= k < |all| ==> all[k].projectId == projectId && all[k].similarity.None?
    requires multiset(r) <= multiset(all)
    ensures forall m :: m in r ==> m.projectId == projectId && m.similarity.None?
  {
    forall m | m in r ensures m.projectId == projectId && m.similarity.None? {
      assert m in multiset(r);
      assert m in multiset(all);
      var k :| 0 <= k < |all| && all[k] == m;
    }
  }

  class Database {
    /** The `memories` table in rowid order. */
    var rows: seq<Row>
    /** The `memories_fts` documents by rowid. */
    var fts: map<nat, FtsEntry>
    /** Which layout `memories_fts` has. */
    var ftsSchema: FtsSchema
    /** `f64::sqrt`, used by the cosine's norms. */
    const sqrt: real -> real

    /** Rowids increase, ids are unique, and the index is what the triggers make of the table. */
    ghost predicate Valid()
      reads this
    {
      IncreasingRowids(rows) && DistinctIds(rows) && fts == Shadow(rows, ftsSchema)
    }

    /** `open` on a new file: `create_schema` makes both tables and the triggers. */
    constructor Open(sqrt: real -> real)
      ensures Valid()
      ensures rows == [] && fts == map[] && ftsSchema == Current && this.sqrt == sqrt
    {
      rows := [];
      fts := map[];
      ftsSchema := Current;
      this.sqrt := sqrt;
    }

    /**
     * `open` on an existing file whose index was written under `schema`.
     * Only the index contents are kept, not which triggers the file holds:
     * under `Legacy` the older triggers and those `create_schema` adds are
     * idealised as one trigger set that keeps one document per row.
     */
    constructor OpenExisting(existing: seq<Row>, schema: FtsSchema, sqrt: real -> real)
      requires IncreasingRowids(existing) && DistinctIds(existing)
      ensures Valid()
      ensures rows == existing && ftsSchema == schema && this.sqrt == sqrt
    {
      rows := existing;
      fts := Shadow(existing, schema);
      ftsSchema := schema;
      this.sqrt := sqrt;
    }

    /**
     * `insert`: encode the embedding, then add one row under the fresh id
     * `newId` with both timestamps `now`; the insert trigger indexes it.
     */
    method Insert(projectId: string, content: string, embedding: seq<bv32>, metadata: Option<string>,
                  newId: string, now: string) returns (r: Result<string, DbError>)
      requires Valid()
      modifies this
      ensures Valid() && ftsSchema == old(ftsSchema)
      ensures Embedding.VecToBlob(embedding).Err? ==>
                r == Err(Embedding.VecToBlob(embedding).error) && rows == old(rows) && fts == old(fts)
      ensures Embedding.VecToBlob(embedding).Ok? && IndexOfId(old(rows), newId).Some? ==>
                r == Err(Sqlite(DUPLICATE_ID_MESSAGE)) && rows == old(rows) && fts == old(fts)
      ensures Embedding.VecToBlob(embedding).Ok? && IndexOfId(old(rows), newId).None? ==>
                var row := Row(NextRowid(old(rows)), newId, projectId, content,
                               Embedding.VecToBlob(embedding).value, metadata, now, now);
                r == Ok(newId) && rows == old(rows) + [row]
                && fts == old(fts)[row.rowid := EntryOf(row, ftsSchema)]
      ensures r.Ok? ==> Get(newId) == Some(Memory(newId, projectId, content, metadata, None, now, now))
    {
      var blob := Embedding.VecToBlob(embedding);
      if blob.Err? {
        return Err(blob.error);
      }
      if IndexOfId(rows, newId).Some? {
        return Err(Sqlite(DUPLICATE_ID_MESSAGE));
      }
      var row := Row(NextRowid(rows), newId, projectId, content, blob.value, metadata, now, now);
      ShadowAppend(rows, row, ftsSchema);
      rows := rows + [row];
      fts := fts[row.rowid := EntryOf(row, ftsSchema)];
      return Ok(newId);
    }

    /** `get`: the row with that id, without a score, or None. */
    function Get(id: string): (r: Option<Memory>)
      reads this
      ensures r.None? <==> forall i :: 0 <= i < |rows| ==> rows[i].id != id
      ensures r.Some? ==> exists i :: 0 <= i < |rows| && rows[i].id == id && r.value == AsMemory(rows[i])
    {
      match IndexOfId(rows, id)
      case None => None
      case Some(i) => Some(AsMemory(rows[i]))
    }

    /** `list`. */
    function List(projectId: string, limit: nat): (r: Result<seq<Memory>, DbError>)
      reads this
      ensures r == ListResult(rows, projectId, limit)
    {
      ListResult(rows, projectId, limit)
    }

    /**
     * `update`: encode the embedding, then overwrite content, embedding and
     * `updated_at` of the row with that id; the update trigger re-indexes it.
     */
    method Update(id: string, content: string, embedding: seq<bv32>, now: string) returns (r: Result<(), DbError>)
      requires Valid()
      modifies this
      ensures Valid() && ftsSchema == old(ftsSchema)
      ensures r.Err? ==> rows == old(rows) && fts == old(fts)
      ensures Embedding.VecToBlob(embedding).Err? ==> r == Err(Embedding.VecToBlob(embedding).error)
      ensures Embedding.VecToBlob(embedding).Ok? && IndexOfId(old(rows), id).None? ==>
                r == Err(Sqlite(NotFoundMessage(id)))
      ensures Embedding.VecToBlob(embedding).Ok? && IndexOfId(old(rows), id).Some? ==>
                var i := IndexOfId(old(rows), id).value;
                var row := old(rows)[i].(content := content, embedding := Embedding.VecToBlob(embedding).value,
                                         updatedAt := now);
                r == Ok(()) && rows == old(rows)[i := row] && fts == old(fts)[row.rowid := EntryOf(row, ftsSchema)]
    {
      var blob := Embedding.VecToBlob(embedding);
      if blob.Err? {
        return Err(blob.error);
      }
      var found := IndexOfId(rows, id);
      if found.None? {
        return Err(Sqlite(NotFoundMessage(id)));
      }
      var i := found.value;
      var row := rows[i].(content := content, embedding := blob.value, updatedAt := now);
      ShadowReplace(rows, ftsSchema, i, row);
      rows := rows[i := row];
      fts := fts[row.rowid := EntryOf(row, ftsSchema)];
      return Ok(());
    }

    /** `delete`: remove the row with that id, reporting whether there was one; the delete trigger unindexes it. */
    method Delete(id: string) returns (existed: bool)
      requires Valid()
      modifies this
      ensures Valid() && ftsSchema == old(ftsSchema)
      ensures existed <==> IndexOfId(old(rows), id).Some?
      ensures !existed ==> rows == old(rows) && fts == old(fts)
      ensures existed ==> var i := IndexOfId(old(rows), id).value;
                          rows == old(rows)[..i] + old(rows)[i + 1..] && fts == old(fts) - {old(rows)[i].rowid}
      ensures Get(id) == None
    {
      var found := IndexOfId(rows, id);
      if found.None? {
        return false;
      }
      var i := found.value;
      ShadowRemove(rows, ftsSchema, i);
      fts := fts - {rows[i].rowid};
      var rest := rows[..i] + rows[i + 1..];
      RemoveKeepsDistinct(rows, i, rest);
      rows := rest;
      return true;
    }

    /** `search`. */
    method Search(projectId: string, query: seq<bv32>, limit: nat) returns (r: Result<seq<Memory>, DbError>)
      ensures r == VectorSearch.SearchResult(rows, projectId, query, limit, sqrt)
    {
      r := VectorSearch.Search(rows, projectId, query, limit, sqrt);
    }

    /** `find_similar`: the top-10000 search filtered by `>= threshold`. */
    method FindSimilar(projectId: string, query: seq<bv32>, threshold: Float) returns (r: Result<seq<Memory>, DbError>)
      ensures r == VectorSearch.FindSimilarResult(rows, projectId, query, threshold, sqrt)
    {
      var all := VectorSearch.Search(rows, projectId, query, VectorSearch.MAX_SEARCH_LIMIT, sqrt);
      if all.Err? {
        return Err(all.error);
      }
      return Ok(VectorSearch.AtOrAbove(all.value, threshold));
    }

    /** `is_fts_initialized`: the index table exists (always, after `open`) and holds a document. */
    function IsFtsInitialized(): (r: bool)
      requires Valid()
      reads this
      ensures r <==> rows != []
    {
      ShadowSize(rows, ftsSchema);
      |fts| > 0
    }

    /**
     * `initialize_fts`: nothing to do when the index already has a
     * project_id column; otherwise, in one transaction, drop and recreate the
     * index with the current layout, fill it from the table, and commit only
     * when it holds as many documents as the table holds rows.
     */
    method InitializeFts() returns (r: Result<(), DbError>)
      requires Valid()
      modifies this
      ensures Valid() && rows == old(rows)
      ensures old(ftsSchema) == Current ==> r == Ok(()) && fts == old(fts) && ftsSchema == Current
      ensures r.Ok? ==> ftsSchema == Current && fts == Shadow(rows, Current)
      ensures r.Err? ==> fts == old(fts) && ftsSchema == old(ftsSchema)
                         && r.error == Sqlite("FTS5 migration incomplete: expected " + Text.NatToString(|rows|)
                                              + " rows, got " + Text.NatToString(|Shadow(rows, Current)|) + " rows")
      ensures r.Ok?
    {
      if ftsSchema == Current {
        return Ok(());
      }
      var savedFts, savedSchema := fts, ftsSchema;
      var memoryCount := |rows|;
      ftsSchema := Current;
      fts := FillIndex(rows);
      var ftsCount := |fts|;
      MigrationCountsAgree(rows);
      r := CountCheck(memoryCount, ftsCount);
      // The rollback restores the index as it was when the count check fails.
      fts, ftsSchema := if r.Err? then savedFts else fts, if r.Err? then savedSchema else ftsSchema;
    }

    /** The `INSERT INTO memories_fts ... SELECT` of the migration: one document per row, in the current layout. */
    static method FillIndex(rows: seq<Row>) returns (index: map<nat, FtsEntry>)
      ensures index == Shadow(rows, Current)
    {
      index := map[];
      var i := 0;
      while i < |rows|
        invariant 0 <= i <= |rows|
        invariant index == Shadow(rows[..i], Current)
      {
        assert rows[..i + 1] == rows[..i] + [rows[i]];
        ShadowAppend(rows[..i], rows[i], Current);
        index := index[rows[i].rowid := EntryOf(rows[i], Current)];
        i := i + 1;
      }
      assert rows[..i] == rows;
    }

    /**
     * `search_bm25`: validate the limit, set the index up when it is empty,
     * then the BM25 query over the current index.
     */
    method SearchBm25(query: string, projectId: string, limit: nat,
                      rank: (string, map<nat, FtsEntry>) -> map<nat, real>) returns (r: Result<seq<Memory>, DbError>)
      requires Valid()
      modifies this
      ensures Valid() && rows == old(rows)
      ensures VectorSearch.ValidateLimit(limit).Err? ==>
                r == Err(VectorSearch.ValidateLimit(limit).error) && fts == old(fts) && ftsSchema == old(ftsSchema)
      ensures r.Ok? ==> r.value == Bm25Result(rows, fts, query, projectId, limit, rank)
      ensures VectorSearch.ValidateLimit(limit).Ok? && old(rows) != [] ==>
                r == Ok(Bm25Result(rows, fts, query, projectId, limit, rank)) && fts == old(fts)
      ensures VectorSearch.ValidateLimit(limit).Ok? ==> r == Ok(Bm25Result(rows, fts, query, projectId, limit, rank))
    {
      var valid := VectorSearch.ValidateLimit(limit);
      if valid.Err? {
        return Err(valid.error);
      }
      if !IsFtsInitialized() {
        var init := InitializeFts();
        match init
        case Err(e) => return Err(e);
        case Ok(_) =>
      }
      var escaped := EscapeFtsQuery(query);
      if escaped == [] {
        return Ok([]);
      }
      return Ok(Bm25Result(rows, fts, query, projectId, limit, rank));
    }
  }

  /** The migration's consistency check: as many index documents as table rows, or the error naming both counts. */
  function CountCheck(memoryCount: nat, ftsCount: nat): (r: Result<(), DbError>)
    ensures r.Ok? <==> ftsCount == memoryCount
  {
    if ftsCount != memoryCount then
      Err(Sqlite("FTS5 migration incomplete: expected " + Text.NatToString(memoryCount)
                 + " rows, got " + Text.NatToString(ftsCount) + " rows"))
    else Ok(())
  }

  /** The migration's row-count check always passes: the rebuilt index has one document per row. */
  lemma {:induction false} MigrationCountsAgree(rows: seq<Row>)
    requires IncreasingRowids(rows)
    ensures |Shadow(rows, Current)| == |rows|
  {
    ShadowSize(rows, Current);
  }
}
