/**
 * The crate-wide error type (`src/errors.rs`) and the conversion that turns
 * a storage error into it: a storage error whose text reports a missing id
 * becomes `NotFound` of that id, every other one keeps its text.
 */
module Errors {
  import opened Wrappers
  import opened SqliteTypes
  import Text

  /**
   * `Error`. The variants up to `SqliteModule` are those src/errors.rs
   * declares. The four after it (`Validation`, `EmptyInput`,
   * `InputTooLong`, `InvalidTimestamp`) are not declared there: they are
   * the errors the store's code and tests/lib_integration.rs construct for
   * input validation, recency-weight validation and timestamp parsing, with
   * the fields those uses give them.
   */
  datatype Error =
    | FileNotFound(path: string)
    | Io(message: string)
    | SQLite(message: string)
    | Inference(message: string)
    | Tokenization(message: string)
    | Onnx(message: string)
    | HfHub(message: string)
    | Json(message: string)
    | Config(message: string)
    | Chrono(message: string)
    | InvalidInput(message: string)
    | Shape(message: string)
    | NotFound(id: string)
    | SqliteModule(message: string)
    | Validation(message: string)
    | EmptyInput
    | InputTooLong(maxLength: nat, actualLength: nat)
    | InvalidTimestamp(id: string, timestamp: string, error: string)

  /** The text the conversion looks for, and the one it splits at (with the trailing space). */
  const NOT_FOUND_MARKER: string := "No memory found with id:"
  const NOT_FOUND_PREFIX: string := "No memory found with id: "

  /** `From<sqlite::Error> for Error`. */
  function FromDbError(e: DbError): (r: Error)
    ensures r.SqliteModule? <==> !Text.Contains(Display(e), NOT_FOUND_MARKER)
    ensures r.SqliteModule? ==> r.message == Display(e)
    ensures !r.SqliteModule? ==> r.NotFound?
  {
    var text := Display(e);
    if Text.Contains(text, NOT_FOUND_MARKER) then
      match Text.SplitSecond(text, NOT_FOUND_PREFIX)
      case Some(piece) => NotFound(Text.Trim(piece))
      case None => NotFound("unknown")
    else SqliteModule(text)
  }

  /** `?` on a storage result. */
  function Lift<T>(r: Result<T, DbError>): (s: Result<T, Error>)
    ensures s.Ok? <==> r.Ok?
    ensures r.Ok? ==> s.value == r.value
    ensures r.Err? ==> s.error == FromDbError(r.error)
  {
    match r
    case Ok(v) => Ok(v)
    case Err(e) => Err(FromDbError(e))
  }

  /** The piece the conversion keeps of an id: everything before a marker inside it, if there is one. */
  function FirstPiece(id: string): string
  {
    match Text.Find(id, NOT_FOUND_PREFIX)
    case None => id
    case Some(j) => id[..j]
  }

  /** How the conversion treats the message `update` raises for an unknown id. */
  lemma {:induction false} ConvertNotFound(id: string)
    ensures FromDbError(Sqlite(NOT_FOUND_PREFIX + id)) == NotFound(Text.Trim(FirstPiece(id)))
  {
    var text := Display(Sqlite(NOT_FOUND_PREFIX + id));
    var lead := "Database error: ";
    assert |lead| == 16 && 'N' !in lead;
    assert text == lead + NOT_FOUND_PREFIX + id;
    assert text[..16] == lead;
    assert text[16..16 + |NOT_FOUND_PREFIX|] == NOT_FOUND_PREFIX;
    assert text[16..16 + |NOT_FOUND_MARKER|] == NOT_FOUND_MARKER;
    Text.FirstMatch(text, NOT_FOUND_PREFIX, 16);
    Text.FirstMatch(text, NOT_FOUND_MARKER, 16);
    assert text[16 + |NOT_FOUND_PREFIX|..] == id;
  }

  /**
   * The error `update` raises for an unknown id reaches the store's caller
   * as `NotFound` of that very id, for any id that is already trimmed and
   * does not itself hold the marker text.
   */
  lemma {:induction false} UpdateNotFoundMapsToId(id: string)
    requires Text.Trim(id) == id
    requires !Text.Contains(id, NOT_FOUND_PREFIX)
    ensures FromDbError(Sqlite(NOT_FOUND_PREFIX + id)) == NotFound(id)
  {
    ConvertNotFound(id);
  }

  /**
   * An id that holds the marker text is cut at it: the conversion then
   * reports only the part before the marker.
   */
  lemma {:induction false} IdHoldingMarkerIsCut(head: string, tail: string)
    requires Text.Trim(head) == head
    requires !Text.Contains(head, NOT_FOUND_PREFIX)
    ensures FromDbError(Sqlite(NOT_FOUND_PREFIX + (head + NOT_FOUND_PREFIX + tail))) == NotFound(head)
  {
    PieceBeforeMarker(head, tail);
    ConvertNotFound(head + NOT_FOUND_PREFIX + tail);
  }

  /** The piece kept of `head + marker + tail` is `head`, when `head` holds no marker. */
  lemma {:induction false} PieceBeforeMarker(head: string, tail: string)
    requires !Text.Contains(head, NOT_FOUND_PREFIX)
    ensures FirstPiece(head + NOT_FOUND_PREFIX + tail) == head
  {
    var id := head + NOT_FOUND_PREFIX + tail;
    FindAfterHead(head, tail);
    assert id[..|head|] == head;
  }

  /** In `head + marker + tail`, the first marker is the one after `head` when `head` holds none. */
  lemma {:induction false} FindAfterHead(head: string, tail: string)
    requires !Text.Contains(head, NOT_FOUND_PREFIX)
    ensures Text.Find(head + NOT_FOUND_PREFIX + tail, NOT_FOUND_PREFIX) == Some(|head|)
  {
    var id := head + NOT_FOUND_PREFIX + tail;
    assert id[|head|..|head| + |NOT_FOUND_PREFIX|] == NOT_FOUND_PREFIX;
    assert Text.MatchesAt(id, NOT_FOUND_PREFIX, |head|);
    var j := Text.Find(id, NOT_FOUND_PREFIX).value;
    if j < |head| {
      if j + |NOT_FOUND_PREFIX| <= |head| {
        assert head[j..j + |NOT_FOUND_PREFIX|] == id[j..j + |NOT_FOUND_PREFIX|];
        assert Text.MatchesAt(head, NOT_FOUND_PREFIX, j);
      } else {
        MarkerOverlap(head, tail, j);
      }
    }
  }

  /** The marker cannot start inside `head` and run into the marker that follows it. */
  lemma {:induction false} MarkerOverlap(head: string, tail: string, j: nat)
    requires j < |head| < j + |NOT_FOUND_PREFIX|
    ensures !Text.MatchesAt(head + NOT_FOUND_PREFIX + tail, NOT_FOUND_PREFIX, j)
  {
    var s := head + NOT_FOUND_PREFIX + tail;
    var k := |head| - j;
    assert s[|head|] == NOT_FOUND_PREFIX[0];
    if Text.MatchesAt(s, NOT_FOUND_PREFIX, j) {
      assert s[j..j + |NOT_FOUND_PREFIX|][k] == s[|head|];
      LaterCharsNotN(k);
      assert false;
    }
  }

  /** The marker's first character, `N`, occurs nowhere else in it. */
  lemma {:induction false} LaterCharsNotN(k: nat)
    requires 1 <= k < |NOT_FOUND_PREFIX|
    ensures NOT_FOUND_PREFIX[k] != NOT_FOUND_PREFIX[0]
  {
    assert forall i :: 1 <= i < |NOT_FOUND_PREFIX| ==> NOT_FOUND_PREFIX[i] != 'N';
  }

  /** A message with the marker but without the space after it converts to `NotFound("unknown")`. */
  lemma {:induction false} MarkerWithoutSpaceIsUnknown()
    ensures FromDbError(Sqlite("No memory found with id:")) == NotFound("unknown")
  {
    var text := Display(Sqlite("No memory found with id:"));
    var lead := "Database error: ";
    assert |lead| == 16 && 'N' !in lead;
    assert text == lead + NOT_FOUND_MARKER;
    assert text[..16] == lead;
    assert text[16..16 + |NOT_FOUND_MARKER|] == NOT_FOUND_MARKER;
    Text.FirstMatch(text, NOT_FOUND_MARKER, 16);
    assert |text| == 40 && |NOT_FOUND_PREFIX| == 25;
    Text.NoMatchBefore(text, NOT_FOUND_PREFIX, 16);
  }

  /** Storage errors other than the missing-id one keep their displayed text. */
  lemma {:induction false} OtherErrorsKeepText(e: DbError)
    requires e.EmptyVector? || e.InvalidBlobSize? || e.MismatchedDimensions?
    ensures FromDbError(e) == SqliteModule(Display(e))
  {
    NoCapitalN(e);
    Text.NoFirstChar(Display(e), NOT_FOUND_MARKER);
  }

  lemma {:induction false} NoCapitalN(e: DbError)
    requires e.EmptyVector? || e.InvalidBlobSize? || e.MismatchedDimensions?
    ensures 'N' !in Display(e)
  {
    match e
    case EmptyVector =>
      EmptyVectorNotN();
    case InvalidBlobSize(expected, actual) =>
      BlobSizeNotN(expected, actual);
    case MismatchedDimensions(expected, actual) =>
      DimensionsNotN(expected, actual);
  }

  lemma {:induction false} EmptyVectorNotN()
    ensures 'N' !in Display(EmptyVector)
  {
    var text := "Cannot compute similarity with empty vector";
    assert forall i :: 0 <= i < |text| ==> text[i] != 'N';
    assert Display(EmptyVector) == text;
  }

  lemma {:induction false} BlobSizeNotN(expected: nat, actual: nat)
    ensures 'N' !in Display(InvalidBlobSize(expected, actual))
  {
    SizesNotN("Invalid BLOB size: expected ", expected, " bytes, got ", actual, " bytes");
  }

  lemma {:induction false} DimensionsNotN(expected: nat, actual: nat)
    ensures 'N' !in Display(MismatchedDimensions(expected, actual))
  {
    SizesNotN("Mismatched dimensions: expected ", expected, " dimensions, got ", actual, " dimensions");
  }

  /** A message made of fixed pieces without an `N` and two numbers holds no `N`. */
  lemma {:induction false} SizesNotN(p: string, expected: nat, q: string, actual: nat, t: string)
    requires 'N' !in p && 'N' !in q && 'N' !in t
    ensures 'N' !in p + Text.NatToString(expected) + q + Text.NatToString(actual) + t
  {
    DigitsNotN(Text.NatToString(expected));
    DigitsNotN(Text.NatToString(actual));
    PiecesNotN(p, Text.NatToString(expected), q, Text.NatToString(actual), t);
  }

  lemma {:induction false} DigitsNotN(s: string)
    requires forall i :: 0 <= i < |s| ==> '0' <= s[i] <= '9'
    ensures 'N' !in s
  {
  }

  lemma {:induction false} PiecesNotN(p: string, a: string, q: string, b: string, t: string)
    requires 'N' !in p && 'N' !in a && 'N' !in q && 'N' !in b && 'N' !in t
    ensures 'N' !in p + a + q + b + t
  {
  }
}
