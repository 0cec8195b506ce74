/**
 * The record and error types of the storage layer (`src/sqlite/mod.rs`):
 * a stored memory as callers see it, a row of the `memories` table, and the
 * storage error with its `Display` text.
 */
module SqliteTypes {
  import opened Wrappers
  import Text

  /** A memory as returned to callers; `similarity` is a cosine, BM25 or fused score. */
  datatype Memory = Memory(
    id: string,
    projectId: string,
    content: string,
    metadata: Option<string>,
    similarity: Option<real>,
    createdAt: string,
    updatedAt: string)

  /** The score results are ordered by: `similarity.unwrap_or(0.0)`. */
  function Score(m: Memory): real
  {
    m.similarity.GetOr(0.0)
  }

  /** A row of the `memories` table, with SQLite's implicit `rowid` and the embedding BLOB. */
  datatype Row = Row(
    rowid: nat,
    id: string,
    projectId: string,
    content: string,
    embedding: seq<bv8>,
    metadata: Option<string>,
    createdAt: string,
    updatedAt: string)

  /** The columns `get` and `list` select, with no score attached. */
  function AsMemory(row: Row): (m: Memory)
    ensures m.id == row.id && m.projectId == row.projectId && m.content == row.content
    ensures m.metadata == row.metadata && m.similarity.None?
    ensures m.createdAt == row.createdAt && m.updatedAt == row.updatedAt
  {
    Memory(row.id, row.projectId, row.content, row.metadata, None, row.createdAt, row.updatedAt)
  }

  datatype DbError =
    | Sqlite(message: string)
    | InvalidBlobSize(expected: nat, actual: nat)
    | MismatchedDimensions(expected: nat, actual: nat)
    | EmptyVector
    | InvalidEmbedding(message: string)
    | InvalidLimit(message: string)

  /** The `Display` text of a storage error. */
  function Display(e: DbError): string
  {
    match e
    case Sqlite(msg) => "Database error: " + msg
    case InvalidBlobSize(expected, actual) =>
      "Invalid BLOB size: expected " + Text.NatToString(expected) + " bytes, got "
      + Text.NatToString(actual) + " bytes"
    case MismatchedDimensions(expected, actual) =>
      "Mismatched dimensions: expected " + Text.NatToString(expected) + " dimensions, got "
      + Text.NatToString(actual) + " dimensions"
    case EmptyVector => "Cannot compute similarity with empty vector"
    case InvalidEmbedding(msg) => "Invalid embedding: " + msg
    case InvalidLimit(msg) => "Invalid limit: " + msg
  }
}
