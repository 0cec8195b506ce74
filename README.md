# vipune core, modelled in Dafny

vipune is a local memory store for short texts. Each memory carries a
384-component embedding and belongs to a project. Memories are found again by
vector similarity, by keyword through SQLite FTS5 with BM25 ranking, or by a
Reciprocal Rank Fusion of both. A recency weight can blend in a time decay.

This project models that core and proves properties about it:

- **Storage** (`database.dfy`, module `Storage`): the `memories` table as a class.
  - The table is held as a sequence of rows in rowid order.
  - The FTS5 index is a map that the insert, update and delete triggers keep equal to `FtsIndex.Shadow(rows)`.
  - It covers insert, get, list, update, delete, the vector search, the FTS schema migration and BM25 search.
- **Retrieval primitives**:
  - `embedding.dfy`: the little-endian blob codec over IEEE binary32 bit patterns, and cosine similarity with its error order.
  - `vector_search.dfy`: limit validation, the per-project scan with sort and truncate, and the threshold filter.
  - `fts_index.dfy`: FTS query escaping and the BM25 result.
- **Fusion** (`rrf.dfy`): the `rrf_fusion` loop over a map, with its specification `IsFusion`. That specification fixes the result uniquely.
- **Decay** (`temporal.dfy`): decay-configuration validation, exponential and linear decay with a grace offset, and the recency blend.
- **Timestamps** (`rfc3339.dfy`): the RFC 3339 timestamps read from `created_at`, as section 5.6 of RFC 3339 lays them out.
- **Orchestration** (`memory_store.dfy`, class `Store.MemoryStore`):
  - input checks in the source's order;
  - the conflict gate of `add_with_conflict`;
  - semantic search with recency re-ranking;
  - hybrid search, with its candidate pool, fusion, re-ranking and truncation.
- **Helpers**:
  - project detection and git-remote parsing (project.dfy);
  - configuration defaults, file merge, environment overrides and validation (config.dfy, config_paths.dfy, config_validation.dfy, env_parser.dfy);
  - tilde expansion;
  - the mapping from storage errors to the public error type (errors.dfy).
- **Shared modules**: `Wrappers`, `Text`, `Floats` and `Sorting`. `Sorting` is a stable insertion sort, because Rust's `sort_by` is stable.

**Inputs passed as parameters.** The embedding engine, the clock, the id generator, `f64::sqrt`, `f64::exp` and SQLite's BM25 ranking are all parameters.

- `sqrt` and `exp` are uninterpreted functions.
- The laws that lemmas need about them are stated as the predicates `Floats.IsSqrt` and `Floats.IsExp`. Lemmas take these as preconditions.

## Model

| member | source | states |
|---|---|---|
| Rrf.Contribution | src/rrf.rs:71-88 | each occurrence adds 1/(k+rank) with a 1-based rank, and this is positive when k > -1 |
| Rrf.ScoreOf | src/rrf.rs:68-89 | an id's fused score is positive exactly when the id occurs in some list |
| Rrf.FirstOf | src/rrf.rs:82-86 | the memory kept for an id is its first occurrence, and it exists iff the id occurs |
| Rrf.AccumulateMeaning | src/rrf.rs:68-89 | the accumulated map has exactly the ids that occur; each entry holds the first occurrence and the sum of contributions |
| Rrf.AccumulateLists | src/rrf.rs:68-89 | the nested loops build the same map as the specification fold |
| Rrf.AccumulateList | src/rrf.rs:70-88 | one list's inner loop extends the fold by that list's ranked occurrences |
| Rrf.Values | src/rrf.rs:92 | collecting the map's values yields each entry once, and every entry is collected |
| Rrf.RrfFusion | src/rrf.rs:57-109 | no lists gives []; otherwise the result is the fusion: every id that occurs appears once, with its summed score as similarity and the fields of its first occurrence, sorted by score descending then id ascending |
| Rrf.FusionUnique | src/rrf.rs:92-97 | two results that both satisfy the fusion specification are equal, so the output is deterministic |
| Rrf.FusionTotal | src/rrf.rs:92-97 | the fused order is total on the result and ids are distinct |
| Rrf.FusionSameElements | src/rrf.rs:68-106 | all fusions of the same lists hold the same memories |
| Rrf.IdsOfLists | src/rrf.rs:68-89 | an id is in the fusion's key set iff it occurs at some position of some list |
| Rrf.RankedDistinct | src/rrf.rs:71-88 | in a list with distinct ids, an id at position i scores exactly Contribution(k, i) |
| Rrf.ContributionDecreasing | src/rrf.rs:71-88 | an earlier position contributes strictly more than a later one |
| Rrf.RescoredIsFusion | src/rrf.rs:161-173 | a single list with distinct ids, rescored by rank, is its fusion |
| Rrf.SingleListKeepsOrder | src/rrf.rs:161-173 | fusing a single list with distinct ids keeps the input order |
| Rrf.EmptyListIgnored | src/rrf.rs:68-89 | an empty inner list changes nothing in the fusion |
| Rrf.SpreadRanksBeatMiddle | src/rrf.rs:216-244 | ranks (1,3) sum to more than ranks (2,2) for every k > -1 |
| Rrf.RankingPriority | src/rrf.rs:216-244 | with lists [x,z,y] and [y,z,x], x and y tie at 1/(k+1)+1/(k+3), the tie goes to the smaller id, and both come before z |
| Rrf.FusionKeepsProject | src/memory/search.rs:155-161 | when every input memory is from one project, so is every fused memory |
| Embedding.VecToBlob | src/sqlite/embedding.rs:15-23 | a vector of length other than 384 gives MismatchedDimensions(384, len); length 384 gives 1536 bytes |
| Embedding.FlattenByteAt | src/sqlite/embedding.rs:22 | byte 4i+j of the blob is byte j, least significant first, of component i |
| Embedding.BlobToVec | src/sqlite/embedding.rs:30-43 | the chunk loop computes the decoding: InvalidBlobSize(1536, len) unless the blob has 1536 bytes, else one component per 4 bytes |
| Embedding.BlobRoundTrip | src/sqlite/embedding.rs:15-43 | decoding an encoded 384-vector returns the vector |
| Embedding.VecRoundTrip | src/sqlite/embedding.rs:15-43 | encoding a decoded 1536-byte blob returns the blob |
| Embedding.ByteRoundTrip | src/sqlite/embedding.rs:37-42 | every byte survives decoding and re-encoding |
| Embedding.CosineSimilarity | src/sqlite/embedding.rs:52-85 | errors in the order EmptyVector, then MismatchedDimensions(len a, len b), then InvalidEmbedding for NaN or infinity; succeeds exactly when none applies |
| Embedding.CosineBounded | src/sqlite/embedding.rs:72-84 | by Cauchy–Schwarz the similarity lies in [-1, 1] |
| Embedding.CosineSymmetric | src/sqlite/embedding.rs:72-84 | swapping the vectors does not change the similarity |
| Embedding.CosineOfIdentical | src/sqlite/embedding.rs:72-84 | a non-zero vector has similarity 1 with itself |
| Embedding.CosineOfOrthogonal | src/sqlite/embedding.rs:72-84 | orthogonal vectors, including a zero-norm one, give exactly 0 |
| Embedding.CosineOfOpposite | src/sqlite/embedding.rs:72-84 | a non-zero vector and its sign-flipped copy give -1 |
| Floats.Binary32 | src/sqlite/embedding.rs:37-42 | a bit pattern decodes to a finite value exactly when its exponent field is not all ones |
| Floats.FlipSignNegates | src/sqlite/embedding.rs:37-42 | flipping the sign bit negates the decoded value |
| VectorSearch.ValidateLimit | src/sqlite/search.rs:10-23 | accepts exactly 1..=10000; 0 fails with the message "Limit must be greater than 0" |
| VectorSearch.ProjectRows | src/sqlite/search.rs:43-48 | keeps exactly the rows of the project, in order |
| VectorSearch.ScoreRow | src/sqlite/search.rs:65-81 | a row scores when its blob decodes and the cosine succeeds; the blob error comes first |
| VectorSearch.ScoreAllMeaning | src/sqlite/search.rs:65-82 | the scan succeeds iff every row scores; otherwise it fails with the first failing row's error |
| VectorSearch.ScoreOne | src/sqlite/search.rs:66-81 | the loop body computes ScoreRow |
| VectorSearch.SearchResult | src/sqlite/search.rs:35-93 | the limit is checked first; success iff the scan succeeds; length is min(limit, rows in the project) |
| VectorSearch.Search | src/sqlite/search.rs:35-93 | the push loop, sort and truncate compute SearchResult |
| VectorSearch.SearchProjectOnly | src/sqlite/search.rs:43-48 | every result has the requested project |
| VectorSearch.SearchTopK | src/sqlite/search.rs:84-91 | results are sorted non-increasing, drawn from the scan, and no omitted row scores higher than an included one |
| VectorSearch.SearchAbortsOnBadRow | src/sqlite/search.rs:65-71 | the first row that fails to score aborts the whole search with its error |
| VectorSearch.AtOrAbove | src/sqlite/search.rs:109-112 | keeps exactly the memories whose similarity reaches the threshold |
| VectorSearch.AtOrAboveSorted | src/sqlite/search.rs:109-112 | the filter keeps the order |
| VectorSearch.FindSimilarResult | src/sqlite/search.rs:102-113 | the members are exactly the top-10000 search results at or above the threshold |
| VectorSearch.FindSimilarProperties | src/sqlite/search.rs:102-113 | results are sorted, of the project, and at or above the threshold |
| FtsIndex.EntryOf | src/sqlite/mod.rs:112-127 | the trigger indexes the row's content, and its project id when the index has that column |
| FtsIndex.Shadow | src/sqlite/mod.rs:112-127 | the index's keys are exactly the table's rowids |
| FtsIndex.ShadowAppend | src/sqlite/mod.rs:112-115 | inserting a row adds exactly its document |
| FtsIndex.ShadowRemove | src/sqlite/mod.rs:117-120 | deleting a row removes exactly its document |
| FtsIndex.ShadowReplace | src/sqlite/mod.rs:122-126 | updating a row replaces exactly its document |
| FtsIndex.ReplacesDouble | src/sqlite/fts.rs:196-197 | the two replace calls double every backslash and every double quote |
| FtsIndex.UndoubleDoubled | src/sqlite/fts.rs:196-197 | undoubling reverses the doubling |
| FtsIndex.EscapeTerm | src/sqlite/fts.rs:195-198 | every term is enclosed in double quotes |
| FtsIndex.EscapeTermRoundTrip | src/sqlite/fts.rs:195-198 | unescaping a term returns the original token |
| FtsIndex.EscapeAll | src/sqlite/fts.rs:193-199 | one escaped term per token, in order |
| FtsIndex.EscapeFtsQueryTerms | src/sqlite/fts.rs:191-201 | the escaped query is one quoted term per whitespace-separated token, in token order, joined by single spaces |
| FtsIndex.EscapeEmptyIffBlank | src/sqlite/fts.rs:191-201 | the escaped query is empty exactly when the query is blank |
| FtsIndex.Bm25Candidates | src/sqlite/fts.rs:141-165 | the candidates are exactly the project's rows that match, scored by bm25 |
| FtsIndex.Bm25Result | src/sqlite/fts.rs:134-165 | an empty escaped query gives []; never more than limit results |
| FtsIndex.Bm25ResultProperties | src/sqlite/fts.rs:141-165 | results are in ascending bm25 order, of the project, and each one is a matched row |
| Storage.IndexOfId | src/sqlite/mod.rs:209-233 | finds the row with the id, or reports that none has it |
| Storage.NextRowid | src/sqlite/mod.rs:159-171 | a fresh rowid is larger than every existing one |
| Storage.RemoveKeepsDistinct | src/sqlite/mod.rs:304-309 | deleting a row keeps ids unique and removes the id |
| Storage.ListResult | src/sqlite/mod.rs:240-268 | an invalid limit gives the limit error, and a valid one always succeeds |
| Storage.ListProperties | src/sqlite/mod.rs:240-268 | min(limit, n) memories of the project, newest created_at first, without similarity, and no omitted one newer than a listed one |
| Storage.MigrationCountsAgree | src/sqlite/fts.rs:101-111 | the rebuilt index always has one document per row |
| Storage.Database.Open | src/sqlite/mod.rs:141-145 | a new store is empty, with the index in the current layout |
| Storage.Database.OpenExisting | src/sqlite/mod.rs:89-131 | an existing table opens with the index its triggers built |
| Storage.Database.Insert | src/sqlite/mod.rs:152-172 | a bad embedding or a duplicate id changes nothing; otherwise exactly one row is appended and indexed, and get returns it with created_at == updated_at |
| Storage.Database.Get | src/sqlite/mod.rs:209-233 | None iff no row has the id; otherwise that row, without similarity |
| Storage.Database.List | src/sqlite/mod.rs:240-268 | computes ListResult |
| Storage.Database.Update | src/sqlite/mod.rs:277-295 | a bad embedding or an unknown id (with the "No memory found with id: " message) changes nothing; otherwise only content, embedding and updated_at change, and the index follows |
| Storage.Database.Delete | src/sqlite/mod.rs:304-309 | returns whether the id existed; afterwards get returns None; exactly that row and its document go |
| Storage.Database.Search | src/sqlite/search.rs:35-93 | computes SearchResult over the table |
| Storage.Database.FindSimilar | src/sqlite/search.rs:102-113 | computes FindSimilarResult over the table |
| Storage.Database.IsFtsInitialized | src/sqlite/fts.rs:171-188 | true exactly when the table has a row |
| Storage.Database.InitializeFts | src/sqlite/fts.rs:20-118 | a no-op when the index has the project column; otherwise it commits the rebuilt index; it always succeeds, since the rebuilt index passes the count check |
| Storage.CountCheck | src/sqlite/fts.rs:102-111 | the migration's consistency check passes exactly when the index and the table hold the same number of entries, and otherwise names both counts |
| Storage.Database.FillIndex | src/sqlite/fts.rs:96-97 | the repopulating insert yields one current-layout document per row |
| Storage.Database.SearchBm25 | src/sqlite/fts.rs:126-168 | the limit is checked before anything else; with a valid limit it always succeeds, empty table included, with the BM25 result over the (initialised) index |
| Errors.FromDbError | src/errors.rs:68-80 | a message containing "No memory found with id:" becomes NotFound; every other error keeps its displayed text |
| Errors.Lift | src/errors.rs:68-80 | the ? operator converts only the error side |
| Errors.ConvertNotFound | src/errors.rs:72-75 | the not-found message becomes NotFound of the trimmed text after the marker, up to any repeat of it |
| Errors.UpdateNotFoundMapsToId | src/errors.rs:68-80 | updating a missing id without surrounding whitespace reaches the caller as NotFound(id) |
| Errors.IdHoldingMarkerIsCut | src/errors.rs:72-75 | an id that itself holds the marker is cut at it |
| Errors.MarkerWithoutSpaceIsUnknown | src/errors.rs:72-76 | the marker without its trailing space gives NotFound("unknown") |
| Errors.OtherErrorsKeepText | src/errors.rs:78 | the vector and blob errors become SqliteModule with their display text |
| Temporal.Validate | src/temporal.rs:67-114 | checks λ > 0, then the per-kind λ range, then offset ≥ 0, and reports the first failure |
| Temporal.New | src/temporal.rs:60-64 | gives the default configuration, which passes validation |
| Temporal.AgeSeconds | src/temporal.rs:128-131 | the age in whole seconds, clamped to 0 for future timestamps |
| Temporal.EffectiveAge | src/temporal.rs:132-138 | max(0, age − offset·86400) |
| Temporal.Clamp | src/temporal.rs:152-155 | the clamped value lies in the bounds and is unchanged inside them |
| Temporal.ExponentialDecayProperties | src/temporal.rs:141-151 | exponential decay is 0 past exponent −700, is exp(−λ·age) otherwise, lies in [0, 1] and does not increase with age |
| Temporal.LinearDecayProperties | src/temporal.rs:152-155 | linear decay lies in [0, 1], does not increase with age, and reaches 0 exactly at λ·age ≥ 86400 |
| Temporal.DecayBounds | src/temporal.rs:126-157 | a valid configuration gives decay in [0, 1] |
| Temporal.DecayInGracePeriod | src/temporal.rs:132-138 | decay is exactly 1 within the grace period |
| Temporal.DecayOfNewMemory | src/temporal.rs:128-131 | decay is exactly 1 at age 0 and for future timestamps |
| Temporal.DecayMonotone | src/temporal.rs:126-157 | an older memory never decays less than a newer one |
| Temporal.ApplyRecencyWeight | src/temporal.rs:174-185 | weight ≤ 0 leaves the similarity unchanged; weight 1 gives the decay alone |
| Temporal.RecencyWeightBlends | src/temporal.rs:183-184 | for a weight in (0, 1] the result lies between the similarity and the decay |
| Temporal.ValidateRecencyWeight | src/temporal.rs:188-196 | accepts exactly finite weights in [0, 1] |
| Rfc3339.Parse | src/memory/search.rs:69-76 | succeeds exactly when the fields parse and form a real date and time; the value is that instant in nanoseconds |
| Rfc3339.ParseOfFormat | src/memory/search.rs:69-76 | a UTC timestamp written in RFC 3339 form parses back to its own instant |
| Rfc3339.EpochDayIncreasing | src/temporal.rs:128-131 | a later date has a larger day count |
| Rfc3339.InstantIncreasing | src/temporal.rs:128-131 | a later UTC timestamp gives a larger instant, so ages are ordered like creation times |
| Store.ValidateInputLength | tests/lib_integration.rs:58-103 | blank text gives EmptyInput; otherwise text passes iff its length is at most MAX_INPUT_LENGTH, and fails with InputTooLong(max, length) |
| Store.CheckLimit | src/memory/crud.rs:124-139 | accepts exactly 1..=MAX_SEARCH_LIMIT, otherwise InvalidInput |
| Store.CheckLimitAgrees | src/memory/search.rs:48-55 | the store's limit check agrees with the database's, message included |
| Store.CheckRecencyWeight | src/memory/search.rs:59-63 | accepts exactly finite weights in [0, 1], otherwise a Validation error |
| Store.CandidatePool | src/memory/search.rs:152 | the pool lies in [50, 10000], is at least any valid limit, and is 10·limit for limits 5..1000 |
| Store.HybridCheckOrder | src/memory/search.rs:130-146 | hybrid search rejects a blank query first, then a bad recency weight, then a bad limit |
| Store.SearchCheckOrder | src/memory/search.rs:48-62 | plain search rejects a bad limit first, then a blank query |
| Store.ConflictsOf | src/memory/crud.rs:83-90 | the conflicts mirror the similar memories in order |
| Store.ReweighAllMeaning | src/memory/search.rs:66-91 | re-weighing succeeds iff every timestamp parses, and otherwise fails at the first bad one |
| Store.RerankedProperties | src/memory/search.rs:66-91 | weight ≤ 0 changes nothing; otherwise every memory is re-weighed and the list is sorted non-increasing |
| Store.ReweighBlends | src/memory/search.rs:77-83 | a re-weighed score lies between the old score and the decay, and nothing else changes |
| Store.BadTimestampAborts | src/memory/search.rs:69-76 | the first unparseable created_at aborts with InvalidTimestamp for that memory |
| Store.FinishFailsOnlyOnTimestamp | src/memory/search.rs:164-198 | the hybrid tail fails only on a bad timestamp and only when the weight is positive |
| Store.RerankedKeeps | src/memory/search.rs:164-191 | re-ranking keeps the length and the project, and a sorted list stays sorted |
| Store.FinishProperties | src/memory/search.rs:164-198 | at most limit results, all of the project, and weight 0 gives the truncated fusion |
| Store.MemoryStore.constructor | src/memory/store.rs:34-42 | the store holds its database, embedder and configuration |
| Store.MemoryStore.Add | src/memory/crud.rs:29-39 | content is checked before embedding; on success exactly one row is appended under the next rowid, holding the content, the encoded embedding of the content, the metadata and both timestamps `now`, the index layout is kept, and on failure nothing changes |
| Store.MemoryStore.AddWithConflict | src/memory/crud.rs:65-101 | stores a memory only when the outcome is Added, and then exactly one row holding the content and its encoded embedding is appended; Conflicts and errors change nothing |
| Store.MemoryStore.AddUnlessSimilar | src/memory/crud.rs:79-100 | similar memories give Conflicts and no write; none gives one appended row holding the encoded embedding |
| Store.MemoryStore.InsertAdded | src/memory/crud.rs:92-94 | the insert of the conflict path appends exactly the new row, embedding blob included, and reports Added; a failed insert changes nothing |
| Store.MemoryStore.ConflictsAreSimilar | src/memory/crud.rs:79-100 | Conflicts happen only when not forced; they carry the proposed content and a non-empty list of project memories at or above the threshold |
| Store.MemoryStore.ConflictOutcome | src/memory/crud.rs:79-100 | a Conflicts outcome is exactly the find_similar result mapped to conflicts |
| Store.MemoryStore.ForceAdds | src/memory/crud.rs:73-77 | with force, valid content and a fresh id are always Added |
| Store.MemoryStore.AddedWhenNothingSimilar | src/memory/crud.rs:92-94 | without force, the outcome is Added exactly when nothing is similar |
| Store.MemoryStore.Get | src/memory/crud.rs:106-108 | None iff no memory has the id; otherwise the memory, without similarity |
| Store.MemoryStore.List | src/memory/crud.rs:124-139 | a bad limit is refused before the query; otherwise the database's list |
| Store.MemoryStore.Update | src/memory/crud.rs:141-158 | content is checked first; on success only the memory's row changes, to the new content, the new content's encoded embedding and updated_at, keeping id, project and created_at; on failure nothing changes |
| Store.MemoryStore.Delete | src/memory/crud.rs:160-168 | reports whether the memory existed; if it did, exactly its row is removed and the others keep their order; afterwards get returns None |
| Store.MemoryStore.Search | src/memory/search.rs:40-95 | the reweighing loop and sort compute the search outcome |
| Store.MemoryStore.SemanticHitsProperties | src/memory/search.rs:40-66 | semantic hits are of the project, sorted, and at most the requested count |
| Store.MemoryStore.SearchProperties | src/memory/search.rs:40-95 | at most limit results, of the project, sorted; weight 0 gives the database search unchanged |
| Store.MemoryStore.SearchOutcomeSteps | src/memory/search.rs:40-95 | a successful search passed its checks and is the re-ranking of the semantic hits |
| Store.MemoryStore.Rerank | src/memory/search.rs:66-91 | the loop computes the re-ranked list |
| Store.MemoryStore.ReweighEach | src/memory/search.rs:68-84 | the iter_mut loop computes ReweighAll |
| Store.MemoryStore.ReweighOne | src/memory/search.rs:69-83 | the loop body computes one re-weighing |
| Store.MemoryStore.SearchHybrid | src/memory/search.rs:122-200 | checks come first; a result is the finish of a fusion of the semantic and BM25 lists over the candidate pool, at most limit long and of the project, and it fails only on a bad timestamp |
| Store.MemoryStore.HybridRanking | src/memory/search.rs:152-198 | the searches, fusion and finish after the checks |
| Store.MemoryStore.FuseWithBm25 | src/memory/search.rs:157-198 | given the semantic hits, the BM25 search cannot fail; the result is the finish of a fusion of both lists, of the project, at most limit long, and fails only on a bad timestamp |
| Store.MemoryStore.FuseAndFinish | src/memory/search.rs:160-198 | the finish of a fusion of the two lists, of their project, at most limit long, failing only on a bad timestamp |
| Store.MemoryStore.RankFused | src/memory/search.rs:164-198 | the re-ranking and truncation of the fused list |
| Project.StripPrefix | src/project.rs:118 | strips exactly a present prefix |
| Project.Normalize | src/project.rs:115 | after trimming and stripping, the URL does not end in ".git" |
| Project.DetectProject | src/project.rs:37-76 | never returns the empty string |
| Project.ExplicitWins | src/project.rs:39-44 | a non-blank explicit id is returned trimmed, whatever the environment and git say |
| Project.BlankExplicitFallsThrough | src/project.rs:39-52 | a blank explicit id counts as none |
| Project.RemoteBeatsDirectories | src/project.rs:54-60 | a remote that parses to something wins over the directory names |
| Project.HttpsRemote | src/project.rs:125-130 | scheme://host/owner/repo gives owner/repo |
| Project.SshRemote | src/project.rs:118-122 | git@host:path gives path |
| Project.GitSuffixIgnored | src/project.rs:115 | a trailing ".git" makes no difference to the parse |
| Project.FallbackKeepsUrl | src/project.rs:133 | any other URL comes back trimmed and without trailing ".git" |
| Project.SecondSchemeKeepsGit | src/project.rs:115-130 | a URL with a second "://" is cut before its path is split, so the parse can end in ".git" |
| EnvParser.ParseEnvString | src/config/env_parser.rs:9-14 | a blank value is refused with an error naming the variable; otherwise the value comes back untrimmed |
| EnvParser.ParseEnvPath | src/config/env_parser.rs:17-22 | the same blank check, then tilde expansion |
| EnvParser.ParseEnvFloat | src/config/env_parser.rs:25-33 | blank values are refused; otherwise the trimmed value is parsed, and a parse failure names the variable |
| EnvParser.BlankRefused | src/config/env_parser.rs:9-33 | all three parsers refuse a blank value the same way |
| EnvParser.FloatIgnoresPadding | src/config/env_parser.rs:25-33 | surrounding whitespace does not change a parsed number |
| ConfigPaths.Join | src/config/paths.rs:9-11 | the joined path starts with the base and ends with the relative part |
| ConfigPaths.ExpandTildePath | src/config/paths.rs:18-26 | a path not under "~", or one with no home directory, is unchanged; otherwise it is re-rooted at home |
| ConfigPaths.ExpandTilde | src/config/paths.rs:7-14 | the in-place version leaves its argument as expand_tilde_path would return it |
| ConfigPaths.ExpandUnderHome | src/config/paths.rs:18-26 | "~/rest" becomes home joined with rest, and no longer starts with "~" |
| ConfigPaths.ExpandIdempotent | src/config/paths.rs:18-26 | with an absolute home, expanding twice is expanding once |
| ConfigValidation.CheckUnit | src/config/validation.rs:40-72 | accepts exactly finite values in [0, 1], reporting NaN or infinity apart from a range error |
| ConfigValidation.ValidateAccepts | src/config/validation.rs:31-88 | validation succeeds iff both weights are finite in [0, 1], the model is not blank and the path is not empty |
| ConfigValidation.ValidateReportsFirst | src/config/validation.rs:31-38 | the first failing check, in the order threshold, recency, model, path, is the one reported |
| Configuration.Config.Default | src/config/mod.rs:44-62 | the default values under the given home |
| Configuration.Config.MergeFromFile | src/config/mod.rs:91-103 | the fields become the merge of the old values with the file |
| Configuration.Config.ApplyDatabasePathOverride | src/config/env_parser.rs:36-41 | the field changes only when the variable is set and parses; the parse error is returned |
| Configuration.Config.ApplyEmbeddingModelOverride | src/config/env_parser.rs:44-49 | the field changes only when the variable is set and parses; the parse error is returned |
| Configuration.Config.ApplyModelCacheOverride | src/config/env_parser.rs:52-57 | the field changes only when the variable is set and parses; the parse error is returned |
| Configuration.Config.ApplySimilarityThresholdOverride | src/config/env_parser.rs:60-65 | the field changes only when the variable is set and parses; the parse error is returned |
| Configuration.Config.ApplyRecencyWeightOverride | src/config/env_parser.rs:68-73 | the field changes only when the variable is set and parses; the parse error is returned |
| Configuration.Config.Validate | src/config/mod.rs:106-115 | agrees with the validator on the same four fields, and succeeds exactly when they are in range |
| Configuration.Config.Load | src/config/mod.rs:66-88 | builds the configuration that LoadValues describes, or its error |
| Configuration.DefaultIsValid | src/config/mod.rs:44-62 | the defaults pass validation |
| Configuration.LoadedIsValid | src/config/mod.rs:66-88 | every configuration that loads passes validation |
| Configuration.NothingSetGivesDefaults | src/config/mod.rs:66-88 | with no file and no variables the defaults load |
| Configuration.EnvironmentWins | src/config/mod.rs:66-88 | a set variable decides its field, over the file and the defaults |
| Configuration.FileBeatsDefaults | src/config/mod.rs:91-103 | without variables, non-empty file paths and the model replace the defaults, and both weights always do |
| Configuration.UnsetKeeps | src/config/overrides.rs:12-25 | an unset variable leaves its field as it was |
| Configuration.UnreadableFileFails | src/config/mod.rs:66-88 | an unreadable file stops the load with its message |
| Configuration.BlankVariableFails | src/config/env_parser.rs:36-41 | a blank path variable stops the load with an error naming it |
| Sorting.SortBy | src/sqlite/search.rs:84-91 | the stable sort permutes its input |
| Sorting.SortBySorted | src/sqlite/search.rs:84-91 | the sorted list is in order |
| Sorting.TakeSortedIsTop | src/sqlite/search.rs:91 | truncating a sorted list keeps a top prefix: nothing dropped comes before anything kept |
| Text.SplitJoinedWords | src/sqlite/fts.rs:193 | splitting words joined by single spaces on whitespace gives the words back |

## Left out

- src/memory.rs, src/sqlite.rs and src/config.rs: these older single-file versions are superseded by the module directories. They are not modelled; only the project-less FTS layout of src/sqlite.rs:147-164 appears, as `FtsIndex.Legacy`.
- `validate_input_length` and `MAX_INPUT_LENGTH` are not defined in any source file here. Their behaviour comes from tests/lib_integration.rs, and the value 100000 is a stand-in. No property depends on that value. The length is counted in characters, and blankness is checked before length.
- src/embedding.rs (ONNX inference, tokenizer, model download) is not part of this model. The embedder is a function parameter of `Store.MemoryStore`.
- `MemoryStore::new` and `Database::open` do file and model I/O. `Storage.Database.Open` and `OpenExisting` start from an empty table or from given rows.
- src/config/loader.rs reads and deserialises the TOML file. Its outcome is an input to `Configuration.LoadValues`: unreadable, absent, or the file's values.
- src/config/overrides.rs only calls the five overrides in sequence. That sequence is written out in `Configuration.WithEnv`.
- src/config/legacy.rs, src/import.rs, src/commands.rs, src/main.rs, src/output.rs and src/lib.rs are not modelled. They are file probes, bulk import, CLI dispatch, printing and re-exports.
- Paths are strings with '/' as separator. `Path` component normalisation is not modelled, and neither is a home directory that is not valid Unicode (the `None` home case covers it).
- The SQLite engine is an oracle: tokenising, `MATCH`, `bm25()` and transactions. BM25 ranking is the `rank` parameter. A failing SQL statement, the missing-`memories`-table error of the migration and a missing index table are not modelled: `open` always creates both tables.
- `Storage.Database.InitializeFts`: the count mismatch it reports can never happen in this model (`Storage.MigrationCountsAgree`), so the method always succeeds. The check and its rollback are kept as the source writes them (`Storage.CountCheck`).
- Floating point: f32/f64 arithmetic is modelled on reals, so rounding is not captured. Cosine, decay and blending are exact real formulas. NaN and infinity are tagged only where the code tests for them (`Floats.Float`). `f64::sqrt` and `f64::exp` are parameters. The `{}` formatting of a float in a message is a `show` parameter.
- `Floats.ParseFloat` covers decimal literals with an optional sign, fraction and exponent, plus inf/infinity/nan. It does not round to the nearest f64 and does not model hexadecimal or other forms that Rust rejects or accepts beyond these.
- Rfc3339.Parse accepts the RFC 3339 layout, with 'T' or 't', 'Z', 'z' or a ±hh:mm offset, and an optional fraction of any length, of which nine digits are kept. Other leniencies of chrono's parser (a space separator, leap second 60) are not modelled.
- Rrf.RrfFusion: the source accepts any k. The model requires k > -1 so that every rank's denominator is positive; the only k the callers use is the default 25.
- Rrf.Values: HashMap iteration order is unspecified. The method returns the entries in an arbitrary order, and the following sort makes the result independent of it (`Rrf.FusionUnique`).
- `usize` saturation in the candidate pool is written out (`Store.USIZE_MAX`), but `i64` overflow of `limit as i64` is not: limits are at most 10000 once validated.
- `Project.DetectProject` takes the environment variable, the trimmed git remote and the git-root and working-directory names as inputs. Running git and reading the environment are not modelled.
- `parse_git_remote` does not always strip ".git": all trailing ".git" are removed before slicing, but a URL with a second "://" is cut at that second separator, so the id can still end in ".git". `Project.SecondSchemeKeepsGit` shows this for every such URL.
- Storage.Database.OpenExisting: for a file written under the older layout, only the index contents are modelled, not which triggers exist. Such a file keeps the `memories_ai`/`_ad`/`_au` triggers of src/sqlite.rs:153-164. Opening it adds the `memories_fts_*` triggers of src/sqlite/mod.rs:112-127, which write a `project_id` column the old index lacks. The migration drops only the `memories_fts_*` triggers (src/sqlite/fts.rs:66-69), so the old triggers keep firing afterwards. `Insert`, `Update` and `Delete` on such a file are idealised: the model keeps exactly one document per row, before and after `InitializeFts`.
- Errors.Error: `Validation`, `EmptyInput`, `InputTooLong` and `InvalidTimestamp` are not declared in src/errors.rs:10-66. They are taken from where the store's code and tests/lib_integration.rs construct them, so their fields follow those uses.
- Storage.ListResult and FtsIndex.Bm25Result: ties (equal `created_at`, equal bm25 score) keep rowid order, because the model sorts stably. SQL `ORDER BY` leaves the order of ties unspecified. No proved property depends on the order of ties.
- The clock: `calculate_decay` reads `Utc::now()` for every memory it decays (src/temporal.rs:127). `Store.MemoryStore.Search`, `Store.MemoryStore.SearchHybrid` and the re-ranking (`Store.Reranked`, `Store.MemoryStore.Rerank`) read it once per search, as the parameter `nowNs`, so time passing during one search is not modelled.
- Concurrency: the source has none beyond `&mut self` exclusivity, so none is modelled.
