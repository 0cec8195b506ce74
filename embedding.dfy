/**
 * Embedding BLOB conversion and cosine similarity (`src/sqlite/embedding.rs`).
 * An embedding is 384 `f32` components, held here as their bit patterns; a
 * BLOB is their little-endian bytes, 1536 in all. Cosine similarity works on
 * the components' real values; `sqrt` is a parameter.
 */
module Embedding {
  import opened Wrappers
  import opened SqliteTypes
  import opened Floats

  const EMBEDDING_DIMS: nat := 384
  const EMBEDDING_BLOB_SIZE: nat := EMBEDDING_DIMS * 4

  /** `f32::to_le_bytes` on the bit pattern. */
  function LeBytes(x: bv32): (r: seq<bv8>)
    ensures |r| == 4
  {
    [(x & 0xFF) as bv8, ((x >> 8) & 0xFF) as bv8, ((x >> 16) & 0xFF) as bv8, ((x >> 24) & 0xFF) as bv8]
  }

  /** `f32::from_le_bytes` on the bit pattern. */
  function FromLeBytes(b0: bv8, b1: bv8, b2: bv8, b3: bv8): bv32
  {
    (b0 as bv32) | ((b1 as bv32) << 8) | ((b2 as bv32) << 16) | ((b3 as bv32) << 24)
  }

  lemma {:induction false} FromLeBytesOfLeBytes(x: bv32)
    ensures FromLeBytes(LeBytes(x)[0], LeBytes(x)[1], LeBytes(x)[2], LeBytes(x)[3]) == x
  {
    var b := LeBytes(x);
    assert (b[0] as bv32) == x & 0xFF;
    assert (b[1] as bv32) == (x >> 8) & 0xFF;
    assert (b[2] as bv32) == (x >> 16) & 0xFF;
    assert (b[3] as bv32) == (x >> 24) & 0xFF;
  }

  lemma {:induction false} LeBytesOfFromLeBytes(b0: bv8, b1: bv8, b2: bv8, b3: bv8)
    ensures LeBytes(FromLeBytes(b0, b1, b2, b3)) == [b0, b1, b2, b3]
  {
    var x := FromLeBytes(b0, b1, b2, b3);
    ByteZero(b0, b1, b2, b3);
    ByteOne(b0, b1, b2, b3);
    ByteTwo(b0, b1, b2, b3);
    ByteThree(b0, b1, b2, b3);
  }

  lemma {:induction false} ByteZero(b0: bv8, b1: bv8, b2: bv8, b3: bv8)
    ensures (FromLeBytes(b0, b1, b2, b3) & 0xFF) as bv8 == b0
  {
    assert FromLeBytes(b0, b1, b2, b3) & 0xFF == b0 as bv32;
    WidenNarrow(b0);
  }

  lemma {:induction false} ByteOne(b0: bv8, b1: bv8, b2: bv8, b3: bv8)
    ensures ((FromLeBytes(b0, b1, b2, b3) >> 8) & 0xFF) as bv8 == b1
  {
    assert (FromLeBytes(b0, b1, b2, b3) >> 8) & 0xFF == b1 as bv32;
    WidenNarrow(b1);
  }

  lemma {:induction false} ByteTwo(b0: bv8, b1: bv8, b2: bv8, b3: bv8)
    ensures ((FromLeBytes(b0, b1, b2, b3) >> 16) & 0xFF) as bv8 == b2
  {
    assert (FromLeBytes(b0, b1, b2, b3) >> 16) & 0xFF == b2 as bv32;
    WidenNarrow(b2);
  }

  lemma {:induction false} ByteThree(b0: bv8, b1: bv8, b2: bv8, b3: bv8)
    ensures ((FromLeBytes(b0, b1, b2, b3) >> 24) & 0xFF) as bv8 == b3
  {
    assert (FromLeBytes(b0, b1, b2, b3) >> 24) & 0xFF == b3 as bv32;
    WidenNarrow(b3);
  }

  lemma {:induction false} WidenNarrow(b: bv8)
    ensures (b as bv32) as bv8 == b
  {
  }

  /** `iter().flat_map(to_le_bytes)`: the components' bytes, one component after another. */
  function Flatten(v: seq<bv32>): (r: seq<bv8>)
    ensures |r| == 4 * |v|
  {
    if v == [] then [] else LeBytes(v[0]) + Flatten(v[1..])
  }

  /** Byte `j` of component `i` sits at offset `4 * i + j` of the BLOB. */
  lemma {:induction false} FlattenByteAt(v: seq<bv32>, i: nat, j: nat)
    requires i < |v| && j < 4
    ensures Flatten(v)[4 * i + j] == LeBytes(v[i])[j]
  {
    if i > 0 {
      FlattenByteAt(v[1..], i - 1, j);
      assert Flatten(v)[4 * i + j] == Flatten(v[1..])[4 * (i - 1) + j];
    }
  }

  /** `vec_to_blob`. */
  function VecToBlob(v: seq<bv32>): (r: Result<seq<bv8>, DbError>)
    ensures |v| != EMBEDDING_DIMS ==> r == Err(MismatchedDimensions(EMBEDDING_DIMS, |v|))
    ensures |v| == EMBEDDING_DIMS ==> r.Ok? && |r.value| == EMBEDDING_BLOB_SIZE
  {
    if |v| != EMBEDDING_DIMS then Err(MismatchedDimensions(EMBEDDING_DIMS, |v|))
    else Ok(Flatten(v))
  }

  /** The component encoded by the 4-byte chunk at index `i`. */
  function Chunk(blob: seq<bv8>, i: nat): bv32
    requires 4 * i + 4 <= |blob|
  {
    FromLeBytes(blob[4 * i], blob[4 * i + 1], blob[4 * i + 2], blob[4 * i + 3])
  }

  /** The components a BLOB of whole 4-byte chunks encodes, in order. */
  function Components(blob: seq<bv8>): (v: seq<bv32>)
    requires |blob| % 4 == 0
    ensures |v| == |blob| / 4
  {
    seq(|blob| / 4, i requires 0 <= i < |blob| / 4 => Chunk(blob, i))
  }

  /** What `blob_to_vec` returns for a BLOB. */
  function DecodeBlob(blob: seq<bv8>): Result<seq<bv32>, DbError>
  {
    if |blob| != EMBEDDING_BLOB_SIZE then Err(InvalidBlobSize(EMBEDDING_BLOB_SIZE, |blob|))
    else Ok(Components(blob))
  }

  /** `blob_to_vec`: size check, then one `from_le_bytes` per 4-byte chunk, pushed in order. */
  method BlobToVec(blob: seq<bv8>) returns (r: Result<seq<bv32>, DbError>)
    ensures r == DecodeBlob(blob)
  {
    if |blob| != EMBEDDING_BLOB_SIZE {
      return Err(InvalidBlobSize(EMBEDDING_BLOB_SIZE, |blob|));
    }
    var v: seq<bv32> := [];
    var i := 0;
    while i < EMBEDDING_DIMS
      invariant 0 <= i <= EMBEDDING_DIMS
      invariant |v| == i
      invariant forall k :: 0 <= k < i ==> v[k] == Chunk(blob, k)
    {
      v := v + [FromLeBytes(blob[4 * i], blob[4 * i + 1], blob[4 * i + 2], blob[4 * i + 3])];
      i := i + 1;
    }
    assert |blob| / 4 == EMBEDDING_DIMS;
    assert v == Components(blob);
    return Ok(v);
  }

  /** Decoding an encoded embedding gives it back. */
  lemma {:induction false} BlobRoundTrip(v: seq<bv32>)
    requires |v| == EMBEDDING_DIMS
    ensures VecToBlob(v).Ok? && DecodeBlob(VecToBlob(v).value) == Ok(v)
  {
    var blob := Flatten(v);
    var w := Components(blob);
    forall i | 0 <= i < |v|
      ensures w[i] == v[i]
    {
      FlattenByteAt(v, i, 0);
      FlattenByteAt(v, i, 1);
      FlattenByteAt(v, i, 2);
      FlattenByteAt(v, i, 3);
      FromLeBytesOfLeBytes(v[i]);
    }
    assert w == v;
  }

  /** Encoding a decoded BLOB gives the same bytes back. */
  lemma {:induction false} VecRoundTrip(blob: seq<bv8>)
    requires |blob| == EMBEDDING_BLOB_SIZE
    ensures DecodeBlob(blob).Ok? && VecToBlob(DecodeBlob(blob).value) == Ok(blob)
  {
    var v := Components(blob);
    var back := Flatten(v);
    forall k | 0 <= k < |blob|
      ensures back[k] == blob[k]
    {
      ByteRoundTrip(blob, k / 4, k % 4);
    }
    assert back == blob;
  }

  /** Re-encoding the decoded components gives back byte `j` of chunk `i`. */
  lemma {:induction false} ByteRoundTrip(blob: seq<bv8>, i: nat, j: nat)
    requires |blob| % 4 == 0 && 4 * i + 4 <= |blob| && j < 4
    ensures Flatten(Components(blob))[4 * i + j] == blob[4 * i + j]
  {
    var v := Components(blob);
    FlattenByteAt(v, i, j);
    assert v[i] == Chunk(blob, i);
    LeBytesOfFromLeBytes(blob[4 * i], blob[4 * i + 1], blob[4 * i + 2], blob[4 * i + 3]);
  }

  /** Whether no component is NaN or infinite. */
  predicate AllFinite(v: seq<bv32>)
  {
    forall i :: 0 <= i < |v| ==> Binary32(v[i]).IsFinite()
  }

  /** The real values of finite components (`*x as f64` is exact). */
  function Values(v: seq<bv32>): (r: seq<real>)
    requires AllFinite(v)
    ensures |r| == |v|
    ensures forall i :: 0 <= i < |v| ==> Binary32(v[i]) == Finite(r[i])
  {
    seq(|v|, i requires 0 <= i < |v| => Binary32(v[i]).value)
  }

  /** Sum of pairwise products. */
  function Dot(a: seq<real>, b: seq<real>): real
    requires |a| == |b|
  {
    if a == [] then 0.0 else Dot(a[..|a| - 1], b[..|b| - 1]) + a[|a| - 1] * b[|b| - 1]
  }

  /** Sum of squares. */
  function SumSquares(a: seq<real>): real
  {
    if a == [] then 0.0 else SumSquares(a[..|a| - 1]) + a[|a| - 1] * a[|a| - 1]
  }

  /** `cosine_similarity`: the three error checks in order, then `dot / (|a| * |b|)`, 0 for a zero norm. */
  function CosineSimilarity(a: seq<bv32>, b: seq<bv32>, sqrt: real -> real): (r: Result<real, DbError>)
    ensures a == [] || b == [] ==> r == Err(EmptyVector)
    ensures a != [] && b != [] && |a| != |b| ==> r == Err(MismatchedDimensions(|a|, |b|))
    ensures a != [] && |a| == |b| && !(AllFinite(a) && AllFinite(b)) ==>
              r == Err(InvalidEmbedding("Vector contains NaN or infinite values"))
    ensures r.Ok? <==> a != [] && |a| == |b| && AllFinite(a) && AllFinite(b)
  {
    if a == [] || b == [] then Err(EmptyVector)
    else if |a| != |b| then Err(MismatchedDimensions(|a|, |b|))
    else if !(AllFinite(a) && AllFinite(b)) then Err(InvalidEmbedding("Vector contains NaN or infinite values"))
    else Ok(Cosine(Values(a), Values(b), sqrt))
  }

  /** The Euclidean norm: the root of the sum of squares. */
  function Norm(x: seq<real>, sqrt: real -> real): real
  {
    sqrt(SumSquares(x))
  }

  /** `dot / (norm_a * norm_b)` on real values, 0 when either norm is 0. */
  function Cosine(x: seq<real>, y: seq<real>, sqrt: real -> real): real
    requires |x| == |y|
  {
    if Norm(x, sqrt) == 0.0 || Norm(y, sqrt) == 0.0 then 0.0 else Dot(x, y) / (Norm(x, sqrt) * Norm(y, sqrt))
  }

  lemma {:induction false} SumSquaresNonNegative(a: seq<real>)
    ensures SumSquares(a) >= 0.0
  {
    if a != [] {
      SumSquaresNonNegative(a[..|a| - 1]);
    }
  }

  lemma {:induction false} DotSymmetric(a: seq<real>, b: seq<real>)
    requires |a| == |b|
    ensures Dot(a, b) == Dot(b, a)
  {
    if a != [] {
      DotSymmetric(a[..|a| - 1], b[..|b| - 1]);
    }
  }

  lemma {:induction false} DotSelf(a: seq<real>)
    ensures Dot(a, a) == SumSquares(a)
  {
    if a != [] {
      DotSelf(a[..|a| - 1]);
    }
  }

  /** Sum over `i` of `(a[i] * y - x * b[i])^2`. */
  function CrossSquares(a: seq<real>, b: seq<real>, x: real, y: real): real
    requires |a| == |b|
  {
    if a == [] then 0.0
    else
      var d := a[|a| - 1] * y - x * b[|b| - 1];
      CrossSquares(a[..|a| - 1], b[..|b| - 1], x, y) + d * d
  }

  lemma {:induction false} CrossSquaresExpand(a: seq<real>, b: seq<real>, x: real, y: real)
    requires |a| == |b|
    ensures CrossSquares(a, b, x, y)
            == y * y * SumSquares(a) - 2.0 * x * y * Dot(a, b) + x * x * SumSquares(b)
  {
    if a != [] {
      var a', b' := a[..|a| - 1], b[..|b| - 1];
      var p, q := a[|a| - 1], b[|b| - 1];
      CrossSquaresExpand(a', b', x, y);
      assert (p * y - x * q) * (p * y - x * q) == y * y * (p * p) - 2.0 * x * y * (p * q) + x * x * (q * q);
    }
  }

  lemma {:induction false} CrossSquaresNonNegative(a: seq<real>, b: seq<real>, x: real, y: real)
    requires |a| == |b|
    ensures CrossSquares(a, b, x, y) >= 0.0
  {
    if a != [] {
      CrossSquaresNonNegative(a[..|a| - 1], b[..|b| - 1], x, y);
    }
  }

  /** Cauchy–Schwarz: `dot(a, b)^2 <= |a|^2 * |b|^2`. */
  lemma {:induction false} CauchySchwarz(a: seq<real>, b: seq<real>)
    requires |a| == |b|
    ensures Dot(a, b) * Dot(a, b) <= SumSquares(a) * SumSquares(b)
  {
    if a != [] {
      var a', b' := a[..|a| - 1], b[..|b| - 1];
      var x, y := a[|a| - 1], b[|b| - 1];
      CauchySchwarz(a', b');
      var A, B, D := SumSquares(a'), SumSquares(b'), Dot(a', b');
      CrossSquaresExpand(a', b', x, y);
      CrossSquaresNonNegative(a', b', x, y);
      assert (A + x * x) * (B + y * y) - (D + x * y) * (D + x * y)
             == (A * B - D * D) + (y * y * A - 2.0 * x * y * D + x * x * B);
    }
  }

  lemma {:induction false} AbsBoundFromSquares(d: real, p: real)
    requires p > 0.0 && d * d <= p * p
    ensures -p <= d <= p
  {
    if d > p {
      MoreSquared(d, p);
    } else if d < -p {
      MoreSquared(-d, p);
    }
  }

  lemma {:induction false} MoreSquared(u: real, p: real)
    requires u > p > 0.0
    ensures u * u > p * p
  {
    assert u * u > u * p;
  }

  lemma {:induction false} SquareOfProduct(u: real, v: real)
    ensures (u * v) * (u * v) == (u * u) * (v * v)
  {
  }

  lemma {:induction false} RatioBounded(d: real, p: real)
    requires p > 0.0 && -p <= d <= p
    ensures -1.0 <= d / p <= 1.0
  {
  }

  lemma {:induction false} ProductNonZero(u: real, v: real)
    requires u > 0.0 && v > 0.0
    ensures u * v > 0.0
  {
  }

  /** The similarity of two valid embeddings lies in [-1, 1]. */
  lemma {:induction false} CosineBounded(a: seq<bv32>, b: seq<bv32>, sqrt: real -> real)
    requires IsSqrt(sqrt)
    requires CosineSimilarity(a, b, sqrt).Ok?
    ensures -1.0 <= CosineSimilarity(a, b, sqrt).value <= 1.0
  {
    CosineOfValuesBounded(Values(a), Values(b), sqrt);
  }

  lemma {:induction false} CosineOfValuesBounded(x: seq<real>, y: seq<real>, sqrt: real -> real)
    requires IsSqrt(sqrt) && |x| == |y|
    ensures -1.0 <= Cosine(x, y, sqrt) <= 1.0
  {
    NormOf(x, sqrt);
    NormOf(y, sqrt);
    CosineWithRoots(x, y, sqrt);
  }

  /** The norm is a non-negative root of the sum of squares. */
  lemma {:induction false} NormOf(x: seq<real>, sqrt: real -> real)
    requires IsSqrt(sqrt)
    ensures Norm(x, sqrt) >= 0.0 && Norm(x, sqrt) * Norm(x, sqrt) == SumSquares(x)
  {
    SumSquaresNonNegative(x);
    SqrtSquares(sqrt, SumSquares(x));
  }

  /** Cauchy-Schwarz, read as a bound on the cosine, given that the norms are roots. */
  lemma {:induction false} CosineWithRoots(x: seq<real>, y: seq<real>, sqrt: real -> real)
    requires |x| == |y|
    requires Norm(x, sqrt) >= 0.0 && Norm(x, sqrt) * Norm(x, sqrt) == SumSquares(x)
    requires Norm(y, sqrt) >= 0.0 && Norm(y, sqrt) * Norm(y, sqrt) == SumSquares(y)
    ensures -1.0 <= Cosine(x, y, sqrt) <= 1.0
  {
    if Norm(x, sqrt) != 0.0 && Norm(y, sqrt) != 0.0 {
      QuotientBounded(x, y, sqrt);
      assert Cosine(x, y, sqrt) == Dot(x, y) / (Norm(x, sqrt) * Norm(y, sqrt));
    } else {
      assert Cosine(x, y, sqrt) == 0.0;
    }
  }

  /** The dot product over the product of non-zero norms lies in [-1, 1]. */
  lemma {:induction false} QuotientBounded(x: seq<real>, y: seq<real>, sqrt: real -> real)
    requires |x| == |y|
    requires Norm(x, sqrt) > 0.0 && Norm(x, sqrt) * Norm(x, sqrt) == SumSquares(x)
    requires Norm(y, sqrt) > 0.0 && Norm(y, sqrt) * Norm(y, sqrt) == SumSquares(y)
    ensures -1.0 <= Dot(x, y) / (Norm(x, sqrt) * Norm(y, sqrt)) <= 1.0
  {
    CauchySchwarz(x, y);
    RatioOfNorms(Dot(x, y), SumSquares(x), SumSquares(y), Norm(x, sqrt), Norm(y, sqrt));
  }

  lemma {:induction false} SqrtSquares(sqrt: real -> real, a: real)
    requires IsSqrt(sqrt) && a >= 0.0
    ensures sqrt(a) >= 0.0 && sqrt(a) * sqrt(a) == a
  {
  }

  /** A dot product whose square is at most `A * B`, divided by the roots of `A` and `B`, lies in [-1, 1]. */
  lemma {:induction false} RatioOfNorms(D: real, A: real, B: real, normA: real, normB: real)
    requires normA >= 0.0 && normB >= 0.0 && normA != 0.0 && normB != 0.0
    requires normA * normA == A && normB * normB == B
    requires D * D <= A * B
    ensures -1.0 <= D / (normA * normB) <= 1.0
  {
    var p := normA * normB;
    ProductNonZero(normA, normB);
    SquareOfProduct(normA, normB);
    AbsBoundFromSquares(D, p);
    RatioBounded(D, p);
  }

  /** Similarity is symmetric in its arguments. */
  lemma {:induction false} CosineSymmetric(a: seq<bv32>, b: seq<bv32>, sqrt: real -> real)
    requires CosineSimilarity(a, b, sqrt).Ok?
    ensures CosineSimilarity(b, a, sqrt) == CosineSimilarity(a, b, sqrt)
  {
    DotSymmetric(Values(a), Values(b));
  }

  /** A non-zero embedding compared with itself scores 1. */
  lemma {:induction false} CosineOfIdentical(a: seq<bv32>, sqrt: real -> real)
    requires IsSqrt(sqrt)
    requires a != [] && AllFinite(a) && SumSquares(Values(a)) > 0.0
    ensures CosineSimilarity(a, a, sqrt) == Ok(1.0)
  {
    CosineOfSelf(Values(a), sqrt);
  }

  lemma {:induction false} CosineOfSelf(x: seq<real>, sqrt: real -> real)
    requires IsSqrt(sqrt) && SumSquares(x) > 0.0
    ensures Cosine(x, x, sqrt) == 1.0
  {
    DotSelf(x);
    NormOf(x, sqrt);
    var n := Norm(x, sqrt);
    assert n != 0.0;
    assert Cosine(x, x, sqrt) == SumSquares(x) / (n * n);
    DivideBySelf(SumSquares(x));
  }

  lemma {:induction false} DivideBySelf(s: real)
    requires s != 0.0
    ensures s / s == 1.0 && -s / s == -1.0
  {
  }

  /** Two embeddings whose real values are orthogonal score 0. */
  lemma {:induction false} CosineOfOrthogonal(a: seq<bv32>, b: seq<bv32>, sqrt: real -> real)
    requires a != [] && |a| == |b| && AllFinite(a) && AllFinite(b)
    requires Dot(Values(a), Values(b)) == 0.0
    ensures CosineSimilarity(a, b, sqrt) == Ok(0.0)
  {
    var x, y := Values(a), Values(b);
    var normA, normB := Norm(x, sqrt), Norm(y, sqrt);
    if normA != 0.0 && normB != 0.0 {
      assert normA * normB != 0.0;
      assert Cosine(x, y, sqrt) == 0.0 / (normA * normB);
    }
  }

  /** Every component negated, by flipping its sign bit. */
  function Negated(v: seq<bv32>): (r: seq<bv32>)
    ensures |r| == |v|
  {
    seq(|v|, i requires 0 <= i < |v| => v[i] ^ 0x8000_0000)
  }

  lemma {:induction false} DotNegated(x: seq<real>, y: seq<real>)
    requires |x| == |y|
    requires forall i :: 0 <= i < |x| ==> y[i] == -x[i]
    ensures Dot(x, y) == -SumSquares(x) && SumSquares(y) == SumSquares(x)
  {
    if x != [] {
      DotNegated(x[..|x| - 1], y[..|y| - 1]);
    }
  }

  lemma {:induction false} NegatedValues(a: seq<bv32>)
    requires AllFinite(a)
    ensures AllFinite(Negated(a))
    ensures forall i :: 0 <= i < |a| ==> Values(Negated(a))[i] == -Values(a)[i]
  {
    var b := Negated(a);
    forall i | 0 <= i < |a|
      ensures Binary32(b[i]) == Binary32(a[i]).Negate()
    {
      FlipSignNegates(a[i]);
    }
  }

  /** A non-zero embedding compared with its negation scores -1. */
  lemma {:induction false} CosineOfOpposite(a: seq<bv32>, sqrt: real -> real)
    requires IsSqrt(sqrt)
    requires a != [] && AllFinite(a) && SumSquares(Values(a)) > 0.0
    ensures CosineSimilarity(a, Negated(a), sqrt) == Ok(-1.0)
  {
    NegatedValues(a);
    CosineOfNegation(Values(a), Values(Negated(a)), sqrt);
  }

  lemma {:induction false} CosineOfNegation(x: seq<real>, y: seq<real>, sqrt: real -> real)
    requires IsSqrt(sqrt) && SumSquares(x) > 0.0
    requires |x| == |y| && forall i :: 0 <= i < |x| ==> y[i] == -x[i]
    ensures Cosine(x, y, sqrt) == -1.0
  {
    DotNegated(x, y);
    NormOf(x, sqrt);
    var n := Norm(x, sqrt);
    assert Norm(y, sqrt) == n;
    assert n != 0.0;
    assert Cosine(x, y, sqrt) == -SumSquares(x) / (n * n);
    DivideBySelf(SumSquares(x));
  }
}
