# pgContext algorithms in Dafny

A model of the pure algorithms and state machines of pgContext, a retrieval engine for PostgreSQL, with proofs of what
they promise. `dafny verify dfyconfig.toml` checks everything.

| area | files | main results |
|---|---|---|
| Filter compiler | `Filters`, `FilterParser`, `FilterForms`, `Sql`, `SqlRenderer`, `SqlReading`, `FilterMeaning`, `TruthLaws`, `Placeholders` | The SQL text of every parsed and resolved filter, read with PostgreSQL's precedence (PostgreSQL manual, section 4.1.6) and evaluated in three-valued logic (section 9.1), means what the tree means |
| Delta scan | `Ranking`, `DeltaScan` | Base hits merged with a delta scan are the exact top k of the live rows, before and after any compaction |
| Clustering | `Clustering`, `ClusterTraining` | Every update is the best for its assignment, so Hamming training never raises its cost; it ignores the number of workers |
| Encoded scoring | `LittleEndian`, `Metrics`, `Codec`, `CodecMeaning`, `PreparedQuery` | Table lookups score exactly as direct decoding and reject the same codes |
| Formats | `LittleEndian`, `Policy`, `ListCodec`, `Snapshot`, `SnapshotCodec`, `SpillRuns` | Exact round trips in both directions |
| Splitters | `Utf8`, `Chunking`, `ChunkEnds`, `Words`, `TokenWindows`, `TokenCitations`, `Headings`, `CharacterOffsets` | Coverage, exact overlaps, and fast sweeps equal to direct definitions |
| Jobs | `ChunkJob`, `ChunkJobLaws`, `BuildJob`, `BuildJobLaws` | Fencing, finality, bounded work, when each call succeeds and what it does, over all runs |
| Shared budget | `ComparisonBudget` | Conservation under every interleaving of load and compare-and-swap steps |
| IVF probing | `Ivf` | Which lists are visited and that the answer is exact on them |
| Sparse metrics | `Policy`, `SparseVectors`, `SparseMetric`, `BinarySets` | Merge metrics equal dense metrics |
| Fusion | `FusedScores`, `RankFusion`, `RankFusionLaws`, `ScoreFusion`, `ScoreFusionLaws` | A point that leads in the branches is listed first; equal weights agree with plain fusion; score fusion ignores affine changes |

## How to read it

Code that loops or updates fields is a method or a class method, proved against a specification function; the theorems
are about those functions. Where a fast form must agree with a simple one, both are proved against the same
specification: `Codec.ApproximateDistance` and `PreparedQuery.ScoreCode` have the same postcondition, so they agree on
every codebook, query, metric and code. What such a shared specification means is stated apart from its formulas, in
`FilterForms`, `TruthLaws`, `CodecMeaning`, `TokenCitations`, `BinarySets` and the modules whose names end in `Laws`. The square root, checksums, hashes, the metric of a delta scan, the candidate
mask, cancellation polls, the deadline and record sizes are parameters; results hold for all of them, except that the
square root must be positive on positive numbers in encoded scoring (`Codec.PositiveRoot`) and a true root in the sparse
metrics (`Metrics.IsRoot`); only cosine uses this. `usize` has 64 bits. UTF-8 widths follow section 3 of RFC 3629.

Places where a stated or expected property does not hold of the code, with the exact condition under which it does:

- Chunk ends can go backwards, because a full stop at the end of a window counts as a sentence end. For a profile they
  never do exactly when the overlap is at most one character (`Chunking.EndsAscendIffSmallOverlap`); for a document,
  exactly when no chunk cut at such a mark is followed by a window that pulls back
  (`ChunkEnds.EndsAscendIffNothingPullsBack`).
- Widening a token window to protect the minimum makes the following window shorter still. The last window reaches the
  minimum for every block of at least that size exactly when
  `max_tokens + 1 >= min_tokens + target_tokens - overlap_tokens` (`TokenWindows.MinimumHoldsIff`);
  `TokenWindows.BlockReachesMinimumIff` gives the condition for a single block.
- A lease of an earlier claim can be honoured again. A run is fenced throughout exactly when no lease granted before a
  claim is granted again at or after it (`ChunkJob.RunIsFencedIffNoLeaseReturns`). Fresh claim tokens are enough
  (`ChunkJob.FreshTokensSuffice`) but not needed, because a later expiry also tells leases apart
  (`ChunkJob.FreshTokensAreNotNeeded`); without them a lease can return (`ChunkJob.ReusedTokenIsNotFenced`).
- A snapshot whose entry point is the reserved id `u64::MAX` does not decode to itself
  (`Snapshot.DecodesToItselfIffInPolicy`).
- The sparse and dense binary metrics disagree exactly on vectors of stored zeros and ones with a stored zero
  (`SparseMetric.BinaryMetricsDisagreeIff`, `SparseMetric.StoredZeroIsRefusedBySparseOnly`).
- A range without bounds would render as empty parentheses, which cannot be read
  (`SqlReading.ReadableIffBounded`), and over a JSON path it would leave a parameter without a placeholder
  (`Placeholders.PlaceholdersAreExact`); the parser never produces one (`FilterParser.WritableIsBounded`).
- The chunking profile's documentation says that an overlap below the maximum is needed for termination. The code caps
  the rewind below the chunk's own length, so progress, coverage and rebuilding hold for every overlap
  (`Chunking.SpansRebuildSource`).

## Model

| member | source | states |
|---|---|---|
| Filters.ResolvesIffRegistered | crates/context-filter/src/lib.rs:344-373 | A filter resolves exactly when every key it mentions is registered, the keys being those `field_keys` collects |
| Filters.ResolutionKeepsBounds | crates/context-filter/src/lib.rs:344-373 | Resolution neither adds nor loses range bounds |
| FilterParser.FilterBudget.CountNode | crates/context-filter/src/lib.rs:561-577 | Counts one node and succeeds exactly while the count is at most 256 |
| FilterParser.ParseFilter | crates/context-filter/src/lib.rs:554-577 | The parser accepts a JSON tree exactly when it writes down a filter at most 16 deep with at most 256 nodes, and returns that filter |
| FilterParser.ParseFilterValue | crates/context-filter/src/lib.rs:580-624 | One filter object, with the shared node budget it leaves behind |
| FilterParser.ParseConditionArray | crates/context-filter/src/lib.rs:626-646 | An array of conditions, item by item, one level deeper, under the shared budget |
| FilterParser.ParseCondition | crates/context-filter/src/lib.rs:648-663 | A nested filter or a field condition, either of them counted as one node |
| FilterParser.ParseFieldCondition | crates/context-filter/src/lib.rs:669-705 | A valid key and known members only; of several predicates the last in map order counts |
| FilterParser.ParseRangePredicate | crates/context-filter/src/lib.rs:755-787 | A range has at least one bound and known names only |
| FilterParser.WriteThenDenote | crates/context-filter/src/lib.rs:580-844 | Round trip: writing any writable filter as JSON, with match values bare or wrapped in any mixture, and reading it gives the filter back |
| FilterParser.DenotedIsWritable | crates/context-filter/src/lib.rs:580-844 | Every filter that can be read can be written, so the round trip covers everything the parser returns |
| FilterParser.WritableIsBounded | crates/context-filter/src/lib.rs:755-804 | Every range of a parsed filter has a bound |
| FilterForms.BareMatchIsShorthand | crates/context-filter/src/lib.rs:707-728 | Anywhere in a condition a scalar match means the match object that wraps it under `value`; both are refused or both give the same condition |
| FilterForms.TestIffWritten | crates/context-filter/src/lib.rs:669-810 | A member is read as a test if and only if it is one of the forms that write that test, listed outright |
| FilterForms.FieldConditionIff | crates/context-filter/src/lib.rs:669-705 | A field condition gives a key and a test if and only if that key is its valid key, every other member writes a test and the last of them writes that one |
| FilterForms.NestedIff | crates/context-filter/src/lib.rs:648-663 | A condition is read as a nested filter exactly when a member has one of the three list names |
| FilterForms.FilterObjectIff | crates/context-filter/src/lib.rs:580-624 | A filter object is accepted if and only if it holds condition lists only, not all empty, and is the lists under its names, whatever their order |
| FilterForms.RangeObjectIff | crates/context-filter/src/lib.rs:755-804 | A range is accepted if and only if it holds at least one bound and bounds only, each under its own name |
| FilterForms.BoundKinds | crates/context-filter/src/lib.rs:789-804 | Whole numbers of 64 bits become integer bounds, other numbers stay as they are, strings become text bounds, everything else is refused |
| FilterForms.KeyIsDottedPath | crates/context-filter/src/lib.rs:812-844 | The valid keys are exactly the dotted paths of 1 to 16 non-empty segments, at most 512 bytes long and without a NUL |
| SqlRenderer.PredicateRenderer.PushParameter | crates/context-filter/src/sql.rs:253-261 | Appends one parameter and returns its one-based number |
| SqlRenderer.PredicateRenderer.RenderFilter | crates/context-filter/src/sql.rs:97-132 | Text and new parameters of a filter tree; parameters already pushed are untouched |
| SqlRenderer.PredicateRenderer.RenderParts | crates/context-filter/src/sql.rs:97-132 | The must, should and must_not terms in push order, with the NOT and OR groups formed from them |
| SqlRenderer.PredicateRenderer.RenderConditions | crates/context-filter/src/sql.rs:97-132 | The conditions of one list, in order, sharing the parameter list |
| SqlRenderer.PredicateRenderer.RenderCondition | crates/context-filter/src/sql.rs:134-142 | A field condition or a nested filter |
| SqlRenderer.PredicateRenderer.RenderField | crates/context-filter/src/sql.rs:144-155 | A column name, or a JSON path through one pushed path parameter |
| SqlRenderer.PredicateRenderer.RenderPredicate | crates/context-filter/src/sql.rs:157-214 | Match, match-any, match-except, null tests and ranges, each with its cast |
| SqlRenderer.PredicateRenderer.RenderRange | crates/context-filter/src/sql.rs:216-238 | One comparison for each bound present, joined by AND |
| SqlRenderer.RenderSqlPredicate | crates/context-filter/src/sql.rs:80-88 | The plan of a filter starts from an empty parameter list |
| SqlReading.ReadsFilter | crates/context-filter/src/sql.rs:97-261 | The rendered tokens, read with NOT above AND above OR, give the filter's own expression even where single terms lack parentheses |
| SqlReading.ReadableIffBounded | crates/context-filter/src/sql.rs:97-261 | The rendered text is readable at all exactly when every range in it has a bound |
| FilterMeaning.EvalFilter | crates/context-filter/src/sql.rs:97-261 | The filter's expression, with each placeholder bound to its parameter, has the tree's three-valued meaning on every row |
| FilterMeaning.ResolutionKeepsMeaning | crates/context-filter/src/lib.rs:344-373 | Resolving keys changes no meaning |
| FilterMeaning.CompiledFilterMeansTree | crates/context-filter/src/sql.rs:80-261 | For every JSON tree that writes a filter and every registry that resolves it, the rendered SQL reads back and evaluates, in three-valued logic on every row, to the meaning of the tree |
| TruthLaws.FilterHoldsIff | crates/context-filter/src/sql.rs:97-132 | When the meaning is true and when it is false: every must true, some should true unless there is none, every must_not false, and the three ways to fail |
| TruthLaws.RangeHoldsIff | crates/context-filter/src/sql.rs:216-238 | A range is true when all bounds it has hold and false when one does not |
| TruthLaws.MatchHoldsIff | crates/context-filter/src/sql.rs:157-214 | Match-any is true for a value equal to one of the list, match-except for a value different from all of it, and both when they are false |
| TruthLaws.TruthTables | crates/context-filter/src/sql.rs:97-132 | With false below unknown below true, AND is the lower of two, OR the higher, and NOT turns the order round |
| Placeholders.PlaceholdersAreExact | crates/context-filter/src/sql.rs:97-261 | For every resolved filter, the placeholders used are exactly $1..$n for its n parameters if and only if every range over a JSON path has a bound; they then first appear in ascending order |
| Placeholders.ParsedFiltersUseAllParameters | crates/context-filter/src/sql.rs:80-261 | So they match for every filter the parser can return and every registry that resolves it |
| Placeholders.UnboundedPathWitness | crates/context-filter/src/sql.rs:144-238 | A single unbounded range over a JSON path pushes one parameter and mentions none |
| Ranking.Sort | crates/context-index/src/delta_scan.rs:173-180 | A permutation of the hits in (score, id) order |
| Ranking.SortIgnoresInputOrder | crates/context-index/src/delta_scan.rs:173-180 | The sort has one possible result, whatever order the hits come in |
| Ranking.TakeTopIsTop | crates/context-index/src/delta_scan.rs:158-171 | Sort and truncate keep exactly the hits with fewer than k better ones |
| Ranking.BestComeFirst | crates/context-index/src/delta_scan.rs:158-180 | The answer lists its hits from best score to worst, smaller id first among equals, and everything left out comes after all of them |
| DeltaScan.FoldLiveState | crates/context-index/src/delta_scan.rs:80-98 | The live map and the retired set after a pass over the stream |
| DeltaScan.LastWriteWins | crates/context-index/src/delta_scan.rs:80-98 | A TID is live exactly when its last entry is an upsert, with that entry's vector |
| DeltaScan.LiveStateAppend | crates/context-index/src/delta_scan.rs:80-98 | Appending entries overlays their live state on the earlier one and retires exactly the TIDs they mention |
| DeltaScan.FoldCompactionLiveRows | crates/context-index/src/delta_scan.rs:111-121 | Live rows in ascending TID order, each once |
| DeltaScan.CompactedRowsKeepLiveState | crates/context-index/src/delta_scan.rs:111-121 | Replaying the compacted rows gives back the live state they were made from |
| DeltaScan.ScanDeltaTopK | crates/context-index/src/delta_scan.rs:130-153 | The top k live delta rows by (score, TID), or the metric's failure |
| DeltaScan.MergeIsExact | crates/context-index/src/delta_scan.rs:80-171 | For every base, append stream and metric, merging the delta scan with sufficient base hits gives exactly the top k of the compacted live rows |
| DeltaScan.CompleteAndOverfetchedBasesSuffice | crates/context-index/src/delta_scan.rs:158-171 | A complete base list and the exact top k + retired are both sufficient |
| DeltaScan.CompactionIsInvisible | crates/context-index/src/delta_scan.rs:80-171 | Compacting any prefix of the stream changes no later answer |
| Clustering.SampleIsDistinct | crates/context-build/src/external.rs:205-215 | The sample has as many distinct in-range indexes as requested or available |
| Clustering.SampleIsSmallest | crates/context-build/src/external.rs:205-215 | The sample holds the indexes of smallest hash, smaller index first among equal hashes, in that order |
| Clustering.Nearest | crates/context-build/src/external.rs:466-489 | The chosen centroid is at least as close as every other and strictly closer than every earlier one |
| Clustering.NearestMetricCentroid | crates/context-build/src/external.rs:466-489 | Finds that centroid; fails with InvalidClusterCount for no centroids, else with InvalidVector exactly when a width differs or the vector or a centroid is not binary |
| Clustering.MetricAssignments | crates/context-build/src/external.rs:405-440 | For every worker count chunked assignment gives the nearest centroid of every vector, and fails exactly when, and as, the sequential one does |
| Clustering.NearestIsCheapest | crates/context-build/src/external.rs:405-440 | No assignment of the vectors costs less than the nearest one |
| Clustering.Tally | crates/context-build/src/external.rs:524-538 | Member counts of every cluster and counts of ones in each of its dimensions |
| Clustering.UpdateBinaryMajorities | crates/context-build/src/external.rs:524-552 | Each cluster with members gets the majority of their bits, ties and empty clusters keeping the prior centroid |
| ClusterTraining.CostByDimension | crates/context-build/src/external.rs:524-552 | Total distance summed by vector equals mismatches summed by dimension and cluster |
| ClusterTraining.UpdatedBitIs | crates/context-build/src/external.rs:524-552 | Each updated bit is the one that differs from fewer members of its cluster; if both differ from as many, as in an empty cluster, it stays |
| ClusterTraining.UpdateIsBest | crates/context-build/src/external.rs:524-552 | No centroids whatever, the old ones included, cost less than the updated ones under the assignment of the update |
| ClusterTraining.UpdateKeepsBinary | crates/context-build/src/external.rs:524-552 | Centroids stay binary |
| ClusterTraining.RoundNeverRaisesCost | crates/context-build/src/external.rs:355-403 | One assign-and-update round keeps centroids binary and never raises their cost |
| ClusterTraining.TrainingNeverRaisesCost | crates/context-build/src/external.rs:355-403 | So does any number of rounds with early stopping |
| ClusterTraining.EarlyStopIsInvisible | crates/context-build/src/external.rs:355-403 | Stopping when an assignment repeats gives exactly what all the rounds would have given |
| ClusterTraining.DeterministicMetricClusters | crates/context-build/src/external.rs:355-403 | Every input error exactly when it applies; otherwise a result that does not depend on the number of workers |
| ClusterTraining.ResultIsNoWorseThanSample | crates/context-build/src/external.rs:355-403 | The final cost is at most the cost of the initial sample |
| Codec.ApproximateDistance | crates/context-codec/src/encoded.rs:162-214 | Direct scoring accepts exactly the valid codes for a valid query and metric, and returns the metric distance of the reconstructed vector |
| Codec.ReconstructedSize | crates/context-codec/src/encoded.rs:111-148 | A valid code reconstructs exactly the codebook's dimensions |
| CodecMeaning.ScalarGrid | crates/context-codec/src/encoded.rs:111-148 | Scalar codes run from the minimum, code zero, to the maximum, the last code, in equal steps |
| CodecMeaning.BinaryDigits | crates/context-codec/src/encoded.rs:111-148 | A valid binary code of d dimensions is a number below 2^d written little-endian in as few bytes as hold d bits, and stands for its binary digits, 1.0 for one and -1.0 for zero |
| CodecMeaning.ProductSubvectors | crates/context-codec/src/encoded.rs:310-358 | Subvector j of a product code is the centroid that byte j chooses in codebook j |
| CodecMeaning.DistanceOfOne | crates/context-codec/src/encoded.rs:366-388 | In one dimension L1 and L2 are the gap between the numbers and the negative inner product is minus their product |
| CodecMeaning.DistanceOfConcatenation | crates/context-codec/src/encoded.rs:366-388 | L1 and inner products add up over concatenations, and L2 distances add up squared; with one dimension this determines them |
| CodecMeaning.CosineIsAngle | crates/context-codec/src/encoded.rs:162-214 | Cosine is one minus the inner product over both norms, and infinite exactly from a zero vector |
| PreparedQuery.PiecesReconstruct | crates/context-codec/src/encoded.rs:310-358 | Reading a code byte by byte or dimension by dimension gives the same vector |
| PreparedQuery.PrepareQuery | crates/context-codec/src/encoded.rs:224-308 | Preparation succeeds exactly for the queries direct scoring accepts, and fills the tables |
| PreparedQuery.TableAt | crates/context-codec/src/encoded.rs:224-308 | The entry for position j and code v lies in row j and holds exactly that piece's contribution |
| PreparedQuery.LookUp | crates/context-codec/src/encoded.rs:417-446 | Sums over table entries equal the sums over all dimensions, or a byte is outside its table |
| PreparedQuery.ScoreCode | crates/context-codec/src/encoded.rs:417-458 | Lookup scoring rejects exactly the codes direct scoring rejects and otherwise gives the same distance |
| PreparedQuery.PredictedSizeIsExact | crates/context-codec/src/encoded.rs:87-99 | The predicted scorer size equals the size built, which is eight bytes for each offset and contribution up to the 64-bit limit |
| Snapshot.AcceptedBytesReencode | crates/context-index/src/hnsw_hierarchy.rs:566-645 | Every byte string the decoder accepts re-encodes to itself and decodes to a snapshot within policy |
| Snapshot.DecodesToItselfIffInPolicy | crates/context-index/src/hnsw_hierarchy.rs:529-645 | A snapshot survives encoding and decoding exactly when its entry is not the reserved id and layers and neighbours are within policy |
| Snapshot.EncodingIsInjective | crates/context-index/src/hnsw_hierarchy.rs:529-558 | Different snapshots within policy have different encodings |
| Snapshot.FiniteRanges | crates/context-index/src/hnsw_hierarchy.rs:589-635 | The floats accepted are exactly those below the infinity of their sign |
| LittleEndian.EncodedByte | crates/context-index/src/hnsw_hierarchy.rs:529-558 | Byte k of a field is digit k of its number in base 256 |
| SnapshotCodec.ToBytes | crates/context-index/src/hnsw_hierarchy.rs:529-558 | Encoding fails exactly when a length does not fit its field |
| SnapshotCodec.SnapshotCursor.ReadArray | crates/context-index/src/hnsw_hierarchy.rs:651-676 | Reads exactly the next bytes or leaves the cursor where it is |
| SnapshotCodec.SnapshotCursor.ReadUint | crates/context-index/src/hnsw_hierarchy.rs:678-688 | Little-endian field at the cursor |
| SnapshotCodec.SnapshotCursor.ReadOneNode | crates/context-index/src/hnsw_hierarchy.rs:589-635 | Decodes one node; the early size checks refuse nothing that would decode |
| SnapshotCodec.FromBytes | crates/context-index/src/hnsw_hierarchy.rs:566-645 | The cursor-based decoder agrees with the plain reading of the format on every byte string |
| Utf8.CharIndexOf | crates/context-build/src/chunking.rs:318-337 | Byte offsets at character boundaries and character positions correspond one to one |
| Utf8.WidthIsLeast | crates/context-build/src/chunking.rs:318-337 | A character takes the fewest bytes that can hold its code point |
| Chunking.LastBreak | crates/context-build/src/chunking.rs:281-316 | The last break of its kind: a break, and none after it |
| Chunking.StructuralBreak | crates/context-build/src/chunking.rs:281-316 | One pass finds the last paragraph break, else line break, else sentence end, else white space, else the end, in bytes and characters |
| Chunking.BoundedWindowEnd | crates/context-build/src/chunking.rs:318-326 | Bytes and characters of at most the maximum from a boundary on |
| Chunking.RewindCharacters | crates/context-build/src/chunking.rs:328-337 | The byte offset a number of characters back, or zero |
| Chunking.CutFrom | crates/context-build/src/chunking.rs:223-232 | One cut by byte offsets ends where the cut by characters ends |
| Chunking.ChunkDocument | crates/context-build/src/chunking.rs:207-274 | Succeeds exactly within the three limits; each chunk cites its span and holds its text; on failure the first limit broken is reported |
| Chunking.SpansRebuildSource | crates/context-build/src/chunking.rs:207-274 | Spans are at most the maximum long, starts strictly increase without gaps, each reaches back exactly by the capped overlap, and dropping the rewound tails rebuilds the source |
| Chunking.LargeOverlapWitness | crates/context-build/src/chunking.rs:299-305 | With an overlap of two or more an accepted document has a chunk that ends before the previous one |
| ChunkEnds.NextEndFallsBackIff | crates/context-build/src/chunking.rs:223-271 | For every source, start and profile: the next chunk ends earlier if and only if this chunk fills its window and ends in a sentence mark that no white space follows, and the next window, short of the end and free of line breaks, has its preferred break before that mark |
| ChunkEnds.EndsAscendIffNothingPullsBack | crates/context-build/src/chunking.rs:207-274 | The chunk ends of a document never go backwards if and only if that happens after none of its chunks |
| Chunking.EndsAscendIffSmallOverlap | crates/context-build/src/chunking.rs:207-274 | Chunk ends never go backwards, for all accepted documents, exactly when the overlap is at most one |
| Words.UnicodeWords | crates/context-build/src/token_chunking.rs:681-842 | Succeeds if and only if every checkpoint passes and the text has at most two million words, and then returns exactly its word tokens; each error only when its cause applies |
| Words.TokensAreWords | crates/context-build/src/token_chunking.rs:808-842 | Those tokens are the only ones that mark, by byte offsets, exactly the maximal stretches of word characters, apostrophes inside words included |
| Words.WordsAreOrdered | crates/context-build/src/token_chunking.rs:808-842 | Tokens are non-empty, in order and never touch |
| Words.WordsAreUnique | crates/context-build/src/token_chunking.rs:808-842 | Those properties determine the tokens |
| TokenWindows.WindowTokens | crates/context-build/src/token_chunking.rs:718-733 | The size of the next window, step by step |
| TokenWindows.AppendBlockChunks | crates/context-build/src/token_chunking.rs:640-794 | Tokenizes the block, counts it against the document token ceiling and appends one draft per window, adding its cost to the retained bytes; fails if and only if a checkpoint, the ceiling, the chunk limit, a source range or the retained-output budget refuses, reporting the first refused window; on success the retained bytes are exactly the cost so far and within the budget |
| TokenWindows.WindowsCover | crates/context-build/src/token_chunking.rs:695-781 | Windows run from first to last token, each within the maximum, neighbours sharing exactly the overlap |
| TokenWindows.EveryTokenIsInAWindow | crates/context-build/src/token_chunking.rs:695-781 | No token is skipped |
| TokenWindows.TotalTokens | crates/context-build/src/token_chunking.rs:695-781 | Emitted tokens equal the block's tokens plus the overlap for every window after the first |
| TokenWindows.BlockReachesMinimumIff | crates/context-build/src/token_chunking.rs:718-733 | For every block of at least the minimum size, the last window reaches the minimum if and only if no number of target windows leaves a rest longer than a window and shorter than minimum + target - overlap |
| TokenWindows.MinimumHoldsIff | crates/context-build/src/token_chunking.rs:718-733 | The last window of every block of at least the minimum size reaches the minimum exactly when maximum + 1 >= minimum + target - overlap |
| TokenWindows.DraftsStayInBlock | crates/context-build/src/token_chunking.rs:738-766 | Every window of a block that holds its own text cites a non-empty range inside the block |
| TokenCitations.PartCitesItsTokens | crates/context-build/src/token_chunking.rs:738-766 | The draft of a part of a block starts where a token starts, ends where one ends, and cites a token if and only if it is in its window |
| TokenCitations.WholeBlockIsCited | crates/context-build/src/token_chunking.rs:738-766 | A window of all tokens, or of a block whose text is not its source, cites the whole block |
| TokenCitations.EveryTokenIsCited | crates/context-build/src/token_chunking.rs:695-781 | Between them the drafts of a block leave no token uncited |
| TokenCitations.WholeBlockKeepsTrimmedText | crates/context-build/src/token_chunking.rs:738-766 | A whole block keeps its text without the white space around it, and no less |
| TokenCitations.PartKeepsItsCitation | crates/context-build/src/token_chunking.rs:738-766 | A part of a block keeps exactly as many bytes as its draft cites |
| TokenCitations.RetainedIs | crates/context-build/src/token_chunking.rs:640-675 | The drafts of a block retain their texts, and each a record and a copy of the block's path |
| TokenCitations.PollsAreConsecutive | crates/context-build/src/token_chunking.rs:695-842 | The polls before the first window are the one on entry and those of the tokenizer, without a gap |
| Headings.ParentOccurrences | crates/context-build/src/token_chunking.rs:844-866 | The heading map with prefix eviction gives each draft the deepest heading still open above it |
| Headings.ParentIsUnique | crates/context-build/src/token_chunking.rs:844-866 | There is only one such parent |
| CharacterOffsets.Sweep | crates/context-build/src/token_chunking.rs:878-904 | One sweep over boundaries sorted by offset, ties in any order, gives the counts of every prefix, and fails exactly when a boundary is not between characters or a checkpoint fails |
| CharacterOffsets.CharacterOffsets | crates/context-build/src/token_chunking.rs:868-905 | The same from the drafts themselves: two marks each, sorted, then swept |
| ChunkJob.DocumentChunkJob.ClaimLease | crates/context-build/src/document_chunk_job.rs:195-236 | Does what the transition function says of the whole job, replies included |
| ChunkJob.DocumentChunkJob.HeartbeatLease | crates/context-build/src/document_chunk_job.rs:243-266 | The same for renewing, including the path that finishes a cancellation |
| ChunkJob.DocumentChunkJob.AdvanceStage | crates/context-build/src/document_chunk_job.rs:273-290 | The same for advancing a stage |
| ChunkJob.DocumentChunkJob.PublishDigest | crates/context-build/src/document_chunk_job.rs:297-321 | The same for publishing |
| ChunkJob.DocumentChunkJob.RequestCancel | crates/context-build/src/document_chunk_job.rs:328-334 | The same for requesting a cancellation |
| ChunkJob.DocumentChunkJob.FinishCancel | crates/context-build/src/document_chunk_job.rs:341-353 | The same for finishing it |
| ChunkJob.DocumentChunkJob.RecordFailure | crates/context-build/src/document_chunk_job.rs:360-372 | The same for failing |
| ChunkJob.DocumentChunkJob.RetryJob | crates/context-build/src/document_chunk_job.rs:379-391 | The same for retrying |
| ChunkJob.DocumentChunkJob.SupersedeJob | crates/context-build/src/document_chunk_job.rs:399-412 | The same for superseding; `SupersededIsFinal` says what that is |
| ChunkJob.DocumentChunkJob.RequireLease | crates/context-build/src/document_chunk_job.rs:438-455 | Why a presented lease is not the current unexpired one |
| ChunkJob.StepKeepsInv | crates/context-build/src/document_chunk_job.rs:195-412 | Every call keeps the job invariant |
| ChunkJob.RejectedCallsChangeNothingElse | crates/context-build/src/document_chunk_job.rs:195-255 | A rejected call changes the job exactly on the two paths that finish a cancellation |
| ChunkJob.LeaseExactlyWhenActiveOrReady | crates/context-build/src/document_chunk_job.rs:195-412 | In every run a lease exists exactly while the job is active or Ready |
| ChunkJob.LeaseIsFromLastClaim | crates/context-build/src/document_chunk_job.rs:195-412 | The current lease carries the token of the last successful claim |
| ChunkJob.RunKeepsIdentity | crates/context-build/src/document_chunk_job.rs:195-412 | No run changes the identity of the job, its total work or the generation it would replace |
| ChunkJob.FencedIffNotHeld | crates/context-build/src/document_chunk_job.rs:438-455 | In every run a lease is refused as stale by every call, changing nothing, if and only if it is not the held one; some call with it is accepted or changes the job if and only if it is |
| ChunkJob.HeldIsLastGrant | crates/context-build/src/document_chunk_job.rs:195-266 | The held lease is the last one a claim or heartbeat was granted |
| ChunkJob.RunIsFencedIffNoLeaseReturns | crates/context-build/src/document_chunk_job.rs:195-455 | The exact condition of fencing, for every run: at every point after a successful claim all leases granted before it are refused as stale, if and only if no grant at or after that claim equals one of them; where that fails, a call with such a lease is accepted or changes the job |
| ChunkJob.FreshTokensSuffice | crates/context-build/src/document_chunk_job.rs:195-266 | Fresh claim tokens imply that condition |
| ChunkJob.FreshTokensAreNotNeeded | crates/context-build/src/document_chunk_job.rs:195-236 | They are not needed: for every new job, token and clock, a token claimed again after its lease expired leaves the run fenced, by the later expiry |
| ChunkJob.EarlierLeaseIsFenced | crates/context-build/src/document_chunk_job.rs:243-372 | In every run with fresh claim tokens, any call that presents an earlier lease is rejected as stale and changes nothing |
| ChunkJob.ReusedTokenIsNotFenced | crates/context-build/src/document_chunk_job.rs:379-391 | A lease can return: for every new job, non-zero token and clock, after fail and retry the same claim recreates an equal lease, and the old holder advances the job with it |
| ChunkJob.ReadyOnlyByWalking | crates/context-build/src/document_chunk_job.rs:83-105 | Ready is reached only by walking Leased through Publishing inside one claim |
| ChunkJob.ReadyIsFinal | crates/context-build/src/document_chunk_job.rs:297-321 | Ready, its digest, attempt and progress never change |
| ChunkJob.SupersededIsFinal | crates/context-build/src/document_chunk_job.rs:399-412 | In every run of a new job superseding succeeds if and only if the version is newer and the job is not Ready; from then on, in every continuation, the job is Superseded, holds no lease, is never granted one and refuses every lease as stale |
| ChunkJob.ChangesLowerMeasure | crates/context-build/src/document_chunk_job.rs:83-105 | Every call that changes status or attempt lowers a measure |
| ChunkJob.WorkIsBounded | crates/context-build/src/document_chunk_job.rs:195-412 | Any run has at most three claims and at most 35 such changes |
| ChunkJobLaws.AcceptedIffAdmitted | crates/context-build/src/document_chunk_job.rs:195-412 | For every call in every run of a new job, the condition under which it succeeds, in terms of the live lease, status, progress, attempts and digest |
| ChunkJobLaws.RunIsReplay | crates/context-build/src/document_chunk_job.rs:195-412 | A job is the replay of its successful calls; the only refusals that leave a trace are those that finish a cancellation |
| ChunkJobLaws.ReachedIffNotRetired | crates/context-build/src/document_chunk_job.rs:83-412 | From every new job the runs reach every status but Retired, and never that one |
| BuildJob.StepKeepsInv | crates/context-build/src/lib.rs:380-598 | Every successful call keeps the invariant and never lowers progress |
| BuildJob.ProgressNeverFalls | crates/context-build/src/lib.rs:237-248 | In every run progress never falls and a lease is held exactly in the four active states |
| BuildJob.StepsFollowTable | crates/context-build/src/lib.rs:380-598 | Every status change a method makes is an edge of the table |
| BuildJob.EveryEdgeIsTaken | crates/context-build/src/lib.rs:108-139 | Every edge between different statuses is taken by some call from some reachable job |
| BuildJob.CompletedIsFinal | crates/context-build/src/lib.rs:566-578 | A completed job and its generation never change |
| BuildJob.ValidationIsCurrent | crates/context-build/src/lib.rs:526-556 | A recorded validation was recorded after the last claim or retry |
| BuildJob.CompletedMeansValidated | crates/context-build/src/lib.rs:566-578 | Completed means full progress, a generation and a passing validation from the current attempt |
| BuildJobLaws.AcceptedIffAdmitted | crates/context-build/src/lib.rs:380-598 | For every call in every run of a planned job, the condition under which it succeeds: a lease is recovered only once expired and renewed only before, by its own worker |
| BuildJobLaws.ProgressIsLargestCheckpoint | crates/context-build/src/lib.rs:479-503 | Progress is the largest checkpoint accepted from the running job, so every accepted one is recorded |
| BuildJobLaws.RunIsHistory | crates/context-build/src/lib.rs:380-598 | Status, attempt, lease and generation of a job follow from its successful calls |
| BuildJob.Stage | crates/context-build/src/lib.rs:732-763 | An inventory is staged exactly when non-empty, free of duplicates and of a size that fits 64 bits |
| BuildJob.PinsAreConserved | crates/context-build/src/lib.rs:877-924 | In every run open pins equal successful pins minus unpins, and the inventory never changes |
| BuildJob.RetiredIsFinal | crates/context-build/src/lib.rs:911-924 | A retired generation has no pins and never changes |
| BuildJobLaws.StateIsHistory | crates/context-build/src/lib.rs:828-924 | A generation is retired once asked to retire and without readers, retiring while readers are left, published before that, and validated before that |
| BuildJobLaws.ManifestAcceptsIff | crates/context-build/src/lib.rs:828-924 | For every call in every run of a staged generation, the condition under which it succeeds |
| BuildJobLaws.ValidationIsUnique | crates/context-build/src/lib.rs:828-857 | The validation of a generation is the one that was accepted; no two different ones are |
| ComparisonBudget.StepKeepsInv | crates/context-index/src/hnsw_hierarchy.rs:361-377 | Every load, swap or refusal of any clone keeps the invariant and never lowers the counter |
| ComparisonBudget.BudgetIsExact | crates/context-index/src/hnsw_hierarchy.rs:307-377 | In every interleaving the counter equals the granted reservations, never exceeds the maximum, and every answer is the one it would get alone in the order reservations finish |
| ComparisonBudget.RefusalIsJustified | crates/context-index/src/hnsw_hierarchy.rs:361-377 | A refused batch leaves the counter unchanged and would not fit when it is refused |
| Ivf.IvfProbeOrder | crates/context-index/src/ivf.rs:959-982 | Lists in (centroid score, list id) order, or a read failure |
| Ivf.ProbeOrderIsPermutation | crates/context-index/src/ivf.rs:959-982 | Every list is probed exactly once |
| Ivf.ClosestListsFirst | crates/context-index/src/ivf.rs:959-982 | Lists are probed from the best centroid score to the worst, the smaller list first among equals |
| Ivf.VisitList | crates/context-index/src/ivf.rs:893-924 | One list: its eligible postings within the budget and with no poll cancelled, or exactly why it stopped: the first cancelled poll, a failed read, or the budget |
| Ivf.VisitLists | crates/context-index/src/ivf.rs:885-929 | Visits the shortest non-empty prefix of the window that holds enough eligible postings, else the whole window, with no poll cancelled; each failure lies in a list that had to be read |
| Ivf.SearchProbeWindow | crates/context-index/src/ivf.rs:837-952 | Success returns exactly the best `limit` eligible postings of the visited lists; each failure has its cause in a list that had to be read: the first cancelled poll, a failed read, or a non-empty list that exceeds the budget |
| Ivf.StopIsUnique | crates/context-index/src/ivf.rs:885-929 | The number of lists visited is determined |
| Ivf.RoundsStayInBudget | crates/context-index/src/ivf.rs:837-952 | Rounds of searches that start from zero and pass on the postings visited never exceed the scan-global budget together |
| Ivf.NoListIsVisitedTwice | crates/context-index/src/ivf.rs:837-952 | In a scan over consecutive windows no list is visited in two rounds |
| Ivf.FullProbeIsExact | crates/context-index/src/ivf.rs:837-952 | A search through all lists returns the exact best postings of the whole index |
| SpillRuns.Partition | crates/context-build/src/external.rs:46-75 | Succeeds exactly when every record fits an empty run, else reports the first that does not; runs are within budget with framing and checksum, non-empty, in order and filled greedily |
| SpillRuns.Validate | crates/context-build/src/external.rs:135-168 | Accepts exactly complete frames under a matching checksum, with the right error otherwise |
| SpillRuns.ReadRecords | crates/context-build/src/external.rs:105-133 | Decodes every run that passes validation |
| SpillRuns.RunRoundTrip | crates/context-build/src/external.rs:77-133 | A finished run validates and holds exactly its records |
| SpillRuns.PartitionRoundTrip | crates/context-build/src/external.rs:46-133 | Decoding the runs of a partition in order gives back the records |
| SpillRuns.RecordsRewrite | crates/context-build/src/external.rs:105-133 | A payload that reads as records is their encoding |
| SparseVectors.New | crates/context-core/src/vector.rs:758-793 | Succeeds exactly for in-range entries without a repeated index, and holds the same entries in strictly increasing order |
| SparseMetric.SparseMerge | crates/context-core/src/metric.rs:291-324 | The two-pointer merge equals the sum over all dimensions of the expansions, for every term that is zero at (0, 0) |
| SparseMetric.DistanceSparse | crates/context-core/src/metric.rs:117-138 | Every numeric sparse metric equals the dense metric of the expansions, including when it is refused |
| SparseMetric.CosineRefusesZeroOnly | crates/context-core/src/metric.rs:346-357 | Cosine is refused exactly when a vector is zero |
| SparseMetric.BinaryDistance | crates/context-core/src/metric.rs:210-220 | Dense binary metrics, for any width, accept exactly vectors of zeros and ones whose union fits the 16-bit counters |
| SparseMetric.SparseBinaryDistance | crates/context-core/src/metric.rs:222-265 | Sparse binary metrics accept exactly when every stored value is one, then agree with the dense ones, within 16-bit counters |
| BinarySets.BinaryScoresAreSetDistances | crates/context-core/src/metric.rs:279-285 | Hamming is the size of the symmetric difference of the sets of ones, Jaccard that size over the size of their union, and zero when both are empty |
| SparseMetric.DenseIsBinaryIff | crates/context-core/src/metric.rs:267-277 | The expansion is binary exactly when every stored value is zero or one |
| SparseMetric.BinaryMetricsDisagreeIff | crates/context-core/src/metric.rs:210-277 | What the sparse binary metrics accept the dense ones accept; they disagree if and only if all stored values are zero or one and some stored value is zero |
| SparseMetric.StoredZeroIsRefusedBySparseOnly | crates/context-core/src/metric.rs:227-233 | A vector that stores a single zero, at any index of any dimension, is such a case |
| FusedScores.RankScores | crates/context-hybrid/src/lib.rs:306-318 | The best entries by score, smaller id first among equals |
| FusedScores.RankingIsUnique | crates/context-hybrid/src/lib.rs:306-318 | A score map has one ranking only |
| FusedScores.RankingIsOrdered | crates/context-hybrid/src/lib.rs:306-318 | A ranking lists entries from the highest score down, smaller id first among equals, and skips none that is ahead of a listed one |
| FusedScores.ScaledRanking | crates/context-hybrid/src/lib.rs:306-318 | A common positive factor changes no id and no position |
| RankFusion.AddBranch | crates/context-hybrid/src/lib.rs:291-304 | A branch adds to each point once, at its first rank; ranks beyond 32 bits add nothing |
| RankFusion.ReciprocalRankFusion | crates/context-hybrid/src/lib.rs:280-318 | Ranks exactly the points some branch counts, by the sum of their reciprocal ranks |
| RankFusion.WeightedReciprocalRankFusion | crates/context-hybrid/src/lib.rs:203-250 | The same with normalized weights; fails exactly for a negative weight or a total that is not positive |
| RankFusion.EqualWeightsAgreeWithPlain | crates/context-hybrid/src/lib.rs:203-318 | At least one branch, equal positive weights: never refused, same ids in the same order as plain fusion |
| RankFusionLaws.EarlierRanksCountMore | crates/context-hybrid/src/lib.rs:291-304 | What a rank contributes times the rank raised by k is the weight, and an earlier rank contributes strictly more |
| RankFusionLaws.LeaderIsAhead | crates/context-hybrid/src/lib.rs:280-318 | A point that no branch ranks behind another, and that one ranks ahead of it or whose id is smaller, is listed before it |
| RankFusionLaws.WeightedLeaderIsAhead | crates/context-hybrid/src/lib.rs:203-250 | The same for weighted fusion, over the branches that have weight |
| RankFusionLaws.WeightsAddToOne | crates/context-hybrid/src/lib.rs:203-250 | The normalized weights add up to one |
| RankFusionLaws.OneBranchKeepsItsOrder | crates/context-hybrid/src/lib.rs:280-318 | One branch alone is listed in the order of its first ranks |
| ScoreFusion.Normalize | crates/context-hybrid/src/lib.rs:384-408 | Scaling by the largest magnitude and clamping change nothing: the result times the range of the branch is the distance from its worst score, and one when there is no range |
| ScoreFusion.BestInBranch | crates/context-hybrid/src/lib.rs:392-413 | Every point keeps its best position in the branch |
| ScoreFusion.WeightedFusion | crates/context-hybrid/src/lib.rs:348-431 | Ranks points by the weighted sum of their best positions; each error exactly when it applies |
| ScoreFusion.AlikeFusion | crates/context-hybrid/src/lib.rs:348-431 | Branches with the same positions give the same result: the same error, or the same points with the same scores |
| ScoreFusion.AffineChangeIsInvisible | crates/context-hybrid/src/lib.rs:348-431 | A positive affine change of the scores of any branch leaves the whole result unchanged, errors included |
| ScoreFusion.NegationIsInvisible | crates/context-hybrid/src/lib.rs:348-431 | So does negating the scores of a branch and flipping its order |
| ScoreFusionLaws.PositionsFollowOrder | crates/context-hybrid/src/lib.rs:384-408 | In either order the best score of a branch has position 1, the worst 0, and a better score a larger position |
| ScoreFusionLaws.ShareIsExact | crates/context-hybrid/src/lib.rs:384-413 | What a branch gives a point is its part of the total weight times the distance of the point's best score from the worst one, as a part of the range |
| ScoreFusionLaws.LeaderIsAhead | crates/context-hybrid/src/lib.rs:348-431 | A point at least as good as another in every branch with weight, and better in one or smaller in id, is listed before it; all scores lie between 0 and 1 |

## Left out

- PostgreSQL adapters, `crates/context-pg`, scripts, benchmarks and release tooling: I/O and packaging.
- HNSW search, insertion, cursors and concurrent build: not part of this model.
- Graph mutation and MVCC publication: not part of this model.
- The document parsers in front of token chunking: any parsed block may be given.
- The JSON lexer: a parsed JSON tree is the input of the filter parser.
- IEEE rounding, NaN, infinities and signed zeros: scores and vector components are exact reals, so the errors for non-finite values do not arise.
- SIMD and integer metric kernels: the dense sums are taken as written out.
- Error message texts: `InvalidCode`, `InvalidSnapshot`, `InvalidVector` and the training errors are kept as kinds.
- Arithmetic-mean and Jaccard-medoid training, and the scalar k-means oracle: no monotone cost is promised for sampled medoids, and means need rounding.
- Checksums, content hashes and the sampling hash: parameters or left out, so nothing is said about collisions.
- Stored text, structure path, hash and occurrence ids of token chunks: a draft is its source range and token count.
- Clocks and memory layout: the deadline is any function of the number of polls, and the in-memory sizes of a draft and of a path segment are any numbers.
- IVF query-dimension validation: the query is fixed, and the index gives its scores.
- Page codecs, layouts, row sets, scrolling, catalogs, registrations and profile lifecycles: they would add mostly easy members.
- SparseMetric.BinaryDistance: reports an overflow of a 16-bit counter as an error; the source panics or wraps there, depending on the build.
- Clustering.NearestMetricCentroid: is stated for vectors of at most 65,535 dimensions, where those counters cannot overflow; the vector policy allows 16,000.
- Clustering.MetricAssignments: is stated for such vectors too.
- ClusterTraining.DeterministicMetricClusters: covers the Hamming metric, and vectors of at most 65,535 dimensions for the same reason.
