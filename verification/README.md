# Hektor in Dafny

A model of the algorithmic core of Hektor, a C++ vector database, with proofs of what it keeps and of
where it falls short of what one would expect.

| file | part of the system |
|---|---|
| HnswGraph, HnswBeam, HnswState, HnswRuns, HnswSearch, HnswIndex | the layered graph index: graph and reachability, the two-heap search, the index as a transition system, all its runs, its answers, and the class itself |
| HnswInsertion | what one insertion does, spelled out |
| HnswTightness, HnswPersistence | the exact bound up to which the bottom layer stays connected; saving and loading |
| FlatIndex, VectorOps | the exact index and the vector kernels |
| TextProcessing, Bm25Index, Bm25Engine, Bm25Formula, Bm25Scores | the BM25 inverted index, its search, and what its scores are and depend on |
| Bm25Persistence, Bm25Files | the document section of its file and the whole file |
| KMeans, ProductQuantizer | Lloyd's iteration and the product quantizer |
| ThreadPool, ParallelFor | the pool as a protocol of steps over all interleavings; the chunk arithmetic |
| Tokenizer, TokenizerLaws | the WordPiece tokenizer, and its tokens and pieces told by their places |
| Sha256, Sha256Constants, Sha256KnownAnswer | the content hash, the origin of its constants, and one digest computed from the definitions |
| MetadataIndex | the secondary indexes and their queries |
| Chunkers | the two overlapping chunkers |
| VectorStore, Database | the slotted vector file, and the three stores kept in step over calls, runs and sessions |
| CsvAdapter | the CSV printer and parser |
| Vectors, Strings, Sequences, Ranking, Results | shared definitions |

Objects that the program updates in place are classes with the same fields; a loop of the program is a loop
here, proved against a specification function, a transition relation or a declarative property, and the
lemmas are about those. Distances, scores and centroids are real numbers. `std::sort` is any sorting (equal
keys may end up in any order), `std::priority_queue` a sequence sorted by (distance, id), the order in which
a hash map is walked is arbitrary, and random draws are arbitrary choices.

Where the code does less than its documentation, its name or its comments suggest, the code is modelled and
the exact condition is proved:

- the bottom layer of the graph is guaranteed to be connected up to 2M + 1 elements and, with a Euclidean
  distance, no further;
- once the entry point is removed, every search of the graph is empty;
- a saved index forgets its deletion marks, so loading revives removed vectors;
- an update of a BM25 document to a text without terms reports an error and deletes the document;
- BM25 contents with a literal backslash-n pair do not survive saving and loading;
- a numeric metadata index loses records on loading when two texts parse to the same number, an index created
  late misses earlier records, one whose records are inserted again or removed under other metadata keeps
  stale postings, and a range with its bounds the wrong way round can walk past the end of the table;
- `chunk_fixed` does not end on some texts under its default configuration;
- an insertion whose metadata line cannot be written leaves its record behind for good, and a metadata update
  ignores the id it is given;
- ids drawn after reopening a database may be known to its index, which holds removed ones again, unless none
  ever held exceeds the number of records; and the vector store starts empty;
- CSV fields with quote characters or newlines are not read back as written.

Guards the code needs are preconditions: `allow_replace` is off and HNSW ids are not reused after a removal
(within the first session on a database the ids drawn are proved to be new; after reopening, exactly under the
condition above); no BM25 score divides by zero; no number of the table lies outside both bounds of a range
query; the chunkers are given what makes them end.

## Model

| member | source | states |
|---|---|---|
| `HnswIndexes.HnswIndex.SearchLayer` | src/index/hnsw.cpp:162-242 | The two-heap search of a layer ends. A dead entry yields nothing; a live one yields distinct live nodes sorted by (distance, id), at most max(ef, 1), closed under evaluated edges: every evaluated node left out is no nearer than the last one returned, and then exactly ef come back. |
| `HnswBeam.ShortBeamIsReachableSet` | src/index/hnsw.cpp:162-242 | If fewer than ef ids come back they are exactly the live nodes reachable from the entry along edges of that layer. |
| `HnswBeam.WideBeamIsComplete` | src/index/hnsw.cpp:162-242 | If every live node is reachable and ef is at least their number, the result is all of them, sorted by distance. |
| `HnswBeam.BeamAccept` | src/index/hnsw.cpp:212-219 | Accepting a neighbour (push on both heaps, drop the worst result when there are too many) keeps the invariant of the search. |
| `HnswBeam.BeamReject` | src/index/hnsw.cpp:212-219 | Leaving out a neighbour that is no nearer than the worst of ef results keeps the invariant. |
| `HnswBeam.BeamDone` | src/index/hnsw.cpp:184-187 | Stopping when the nearest candidate is farther than the worst result is right: the invariant gives the contract of the search. |
| `HnswIndexes.HnswIndex.SelectNeighbors` | src/index/hnsw.cpp:244-263 | All candidates if they fit, otherwise the first M of some sorting of them by distance. |
| `HnswIndexes.HnswIndex.ConnectNodes` | src/index/hnsw.cpp:280-311 | One directed link: nothing changes if the node is gone, the layer is above it or the link exists; otherwise that list alone becomes itself plus the new id, cut to the nearest 2M (layer 0) or M, measured from its owner. |
| `HnswGraph.CutFacts` | src/index/hnsw.cpp:300-310 | A cut list is a duplicate-free selection, and nothing dropped is nearer than anything kept. |
| `HnswIndexes.HnswIndex.Descend` | src/index/hnsw.cpp:105-114 | Each layer from the top is left at the nearest node that a beam of width one finds from where the layer above was left, or at the same node when the search finds nothing; the walk stays in the layer, is alive exactly when its start is, and never ends farther away than it began. |
| `HnswBeam.DescentIsGreedyPath` | src/index/hnsw.cpp:105-114 | From a live start a descent leaves each layer, one after the other from the top, at a node that is reachable on it, no farther from the query, and nearer than none of its live neighbours there. |
| `HnswIndexes.HnswIndex.LinkLayers` | src/index/hnsw.cpp:116-132 | From the top shared layer down, the new node gets the neighbours chosen in the graph as it was before the insertion, searched from the first neighbour chosen one layer above (or from where the descent ended), and each of them links back. |
| `HnswIndexes.HnswIndex.Add` | src/index/hnsw.cpp:60-142 | Dimension, capacity and duplicate errors in that order with the index unchanged; otherwise exactly one step of the transition relation at some level up to one above the top, which HnswInsertions spells out; and the class invariant holds. |
| `HnswInsertions.AddedAlongGreedyPath` | src/index/hnsw.cpp:105-132 | With a live entry point, a new node comes down from it to its own level by such moves; then on each shared layer, from the top, its list is the M nearest, nearest first, of a beam of max(ef_construction, 1) places, started where the descent ended or at the nearest neighbour found one layer above; its lists above the old top are empty. |
| `HnswInsertions.AddedUnlinked` | src/index/hnsw.cpp:105-132 | Once the entry point is gone, a new node is linked to nothing and no old node changes at all. |
| `HnswInsertions.BackLinks` | src/index/hnsw.cpp:280-311 | On each layer exactly the nodes that the new one lists get it into their own list, whose length becomes min(old + 1, M), or min(old + 1, 2M) on the bottom layer; what is dropped is no nearer to its owner than what stays; every other list stays as it is. |
| `HnswInsertions.StepHeight` | src/index/hnsw.cpp:82-141 | A call raises the top layer by at most one, and then to the level of the new node, which becomes the entry point; in a non-empty index the entry point changes in no other case. |
| `HnswInsertions.EveryRunHeight` | src/index/hnsw.cpp:82-141 | After n calls no node has a level above n. |
| `HnswIndexes.HnswIndex.AddBatch` | src/index/hnsw.cpp:144-160 | The elements before the first one that cannot go in are added by as many single insertions, in order, and stay; the result is success when there is none and otherwise the error of that element. |
| `HnswRuns.InTurnGrows` | src/index/hnsw.cpp:144-160 | What a batch put in, whether it failed or not, is exactly the front of its list of ids. |
| `HnswRuns.InTurnKeepsUnpruned` | src/index/hnsw.cpp:144-160 | While at most 2M + 1 elements are in, a batch leaves layer 0 unpruned, symmetric and connected. |
| `HnswIndexes.HnswIndex.Remove` | src/index/hnsw.cpp:372-391 | Fails exactly on unknown ids; otherwise the node is marked, its id forgotten and the count lowered, and nothing else changes. |
| `HnswState.AddKeepsConsistent` | src/index/hnsw.cpp:60-142 | An insertion of a fresh id keeps the class invariant: lists hold at most 2M (layer 0) or M ids (every other layer), no duplicates, no self-loops, only nodes of that level; every vector has the configured dimension; the table maps each live id to its own node; the entry point lies in the top layer; the count is the table size. |
| `HnswState.RemoveKeepsConsistent` | src/index/hnsw.cpp:372-391 | A removal keeps the class invariant. |
| `HnswState.CountIsLiveNodes` | src/index/hnsw.cpp:82-141 | The element count is the number of nodes not marked deleted. |
| `HnswState.UntouchedBeam` | src/index/hnsw.cpp:116-132 | A beam search in a half-linked graph, in a layer not yet linked, answers as in the graph before the insertion. |
| `HnswState.BackLinkSet` | src/index/hnsw.cpp:124-127 | Linking back to the k-th chosen neighbour extends the set of finished back links by exactly that one. |
| `HnswState.LayerStartKept` | src/index/hnsw.cpp:116-132 | Where the search of a layer starts depends on the lists chosen above it only, so linking a layer does not move the starts above. |
| `HnswRuns.EveryRunConsistent` | src/index/hnsw.cpp:60-142 | The class invariant holds after every run of additions of fresh ids and removals from the empty index; in particular every list on a layer above the bottom names at most M nodes, and every bottom list at most 2M. |
| `HnswRuns.UnprunedEdges` | src/index/hnsw.cpp:280-311 | While at most 2M nodes are in, an insertion adds to layer 0 both directions of each chosen link and changes no other edge. |
| `HnswRuns.AddKeepsConnected` | src/index/hnsw.cpp:60-142 | While at most 2M nodes are in, any two live nodes reach each other on layer 0 after an insertion. |
| `HnswRuns.SmallRunConnected` | src/index/hnsw.cpp:60-142 | After every insert-only run of at most 2M + 1 fresh ids (M >= 1), whatever the levels, vectors and distances, layer 0 is symmetric and connected and nothing was pruned. |
| `HnswTightness.ConnectedExactlyUpTo` | src/index/hnsw.cpp:280-311 | For every M >= 1 and every distance that orders vectors of one dimension as the Euclidean one does, insert-only runs of at most n elements always leave layer 0 connected if and only if n <= 2M + 1. |
| `HnswTightness.EuclideanExactlyUpTo` | src/core/vector_ops.cpp:224-239 | That holds for the L2 and the L2Squared metric of the program. |
| `HnswTightness.SmallRunsConnected` | src/index/hnsw.cpp:280-311 | For every distance function whatever, insert-only runs of at most 2M + 1 elements leave layer 0 connected. |
| `HnswTightness.LastIsLost` | src/index/hnsw.cpp:300-310 | In the run of 2M + 2 points i * e_i the last node is live but nothing leads to it: each of the M points nearest to the origin drops it as the farthest of 2M + 1 neighbours. |
| `HnswTightness.AxisDots` | src/core/vector_ops.cpp:150-193 | Two different points i * e_i and j * e_j lie at squared distance i^2 + j^2, by the sum that the kernel computes. |
| `HnswTightness.StarRuns` | src/index/hnsw.cpp:60-142 | That run is a run of the index under every such distance: every step satisfies the transition relation of Add. |
| `HnswIndexes.HnswIndex.Search` | src/index/hnsw.cpp:313-348 | A search answers with the first k of a bottom-layer beam started where the descent from the entry point leads, each with its true distance; SearchIsGreedyPath says which way that is. |
| `HnswSearch.SearchIsGreedyPath` | src/index/hnsw.cpp:313-348 | Every search from a live entry point: a path of nodes m(max level) = entry point, ..., m(0), each reachable from the one before on its layer, no farther from the query and with no nearer live neighbour there; then the first k of a beam of max(ef_search, 1) places on the bottom layer from m(0), with their distances; the first hit is no farther than m(0), and none of its neighbours is nearer. |
| `HnswIndexes.HnswIndex.SetEfSearch` | src/index/hnsw.cpp:437-439 | Changes the beam width of later searches and nothing else. |
| `HnswIndexes.HnswIndex.Resize` | src/index/hnsw.cpp:441-454 | Refuses a capacity below the number of elements; otherwise changes the capacity and nothing else. |
| `HnswSearch.AnswerIsSorted` | src/index/hnsw.cpp:313-348 | Every answer has at most k distinct live ids with their true distances, in nondecreasing order, equally distant ones by id. |
| `HnswSearch.AnswerEmptyExactlyWhen` | src/index/hnsw.cpp:313-348 | An answer is empty if and only if the dimension is wrong, k is zero or the entry point is not live; so once the entry point is removed nothing is found. |
| `HnswSearch.AnswerBeatsEntry` | src/index/hnsw.cpp:313-348 | The first answer is no farther away than the entry point. |
| `HnswSearch.ConnectedSearchExact` | src/index/hnsw.cpp:313-348 | On a connected layer 0 with a live entry point and ef_search at least the size, the answer is the k nearest. |
| `HnswSearch.SmallRunSearchExact` | src/core/vector_ops.cpp:434-455 | After an insert-only run of n <= 2M + 1 ids, with ef_search >= n, the search returns exactly min(k, n) results with the same distances as any correct exact answer. |
| `HnswIndexes.HnswIndex.SearchFiltered` | src/index/hnsw.cpp:350-370 | The first k passing results among the answer to a search for 3k. |
| `HnswSearch.FilteredExact` | src/index/hnsw.cpp:350-370 | If 3k covers the index and the search is exact, the filtered search returns the k nearest of the ids that pass. |
| `FlatIndexes.FlatIndex.Search` | src/index/hnsw.cpp:616-629 | The flat index returns the k nearest of all its vectors, nothing for a wrong dimension. |
| `FlatIndexes.SmallRunAgreesWithFlat` | src/index/hnsw.cpp:616-629 | On small insert-only runs the HNSW search and the flat index return the same number of results with the same distances. |
| `HnswPersistence.Save` | src/index/hnsw.cpp:461-511 | Writes header, configuration with metric and seed, counters and, node by node, id, level, vector and the length-prefixed lists; deletion marks are not written. |
| `HnswPersistence.Load` | src/index/hnsw.cpp:513-583 | Refuses unknown magic numbers and versions; otherwise rebuilds an index from the cells, versions 1 and 2 alike, and the metric read decides its distance. |
| `HnswPersistence.NodeLayout` | src/index/hnsw.cpp:493-507 | The cells of a node: id, level, vector, and for each layer from the bottom up the number of neighbours and their ids; a deletion mark leaves no trace. |
| `HnswPersistence.SavedReadsBack` | src/index/hnsw.cpp:461-583 | For every index that satisfies the class invariant, the saved file is found to hold the configuration, counters, vectors and lists of every node, all of them unmarked. |
| `HnswPersistence.ReopenedKnowsEveryId` | src/index/hnsw.cpp:578-579 | After loading, an id is live exactly when it was ever added: removed vectors come back. |
| `HnswPersistence.LoadRestoresExactlyWhen` | src/index/hnsw.cpp:461-583 | What is read from the file of such an index is that index if and only if no node was marked deleted, and exactly then is it consistent. |
| `HnswPersistence.SaveAndLoad` | src/index/hnsw.cpp:461-583 | Saving any valid index and loading the file gives the same configuration and distance, and the same index, again valid, if and only if no node was marked deleted. |
| `HnswPersistence.RunSurvivesExactlyWhen` | src/index/hnsw.cpp:461-583 | The index after a run comes back from its file as it was if and only if the run removed nothing. |
| `VectorOps.DotProductAvx2` | src/core/vector_ops.cpp:54-81 | Eight-lane accumulation, horizontal sum and remainder loop give the scalar dot product for every length. |
| `VectorOps.L2SquaredAvx2` | src/core/vector_ops.cpp:150-193 | The eight-lane loop gives the sum of squared differences; unequal dimensions give the largest distance. |
| `VectorOps.CauchySchwarz` | src/core/vector_ops.cpp:200-217 | The square of a dot product is at most the product of the self dot products. |
| `VectorOps.CosineSimilarity` | src/core/vector_ops.cpp:200-217 | The result lies in [-1, 1]; it is dot product over product of norms, or zero when the dimensions differ or a norm is below the threshold. |
| `VectorOps.BruteForceKnn` | src/core/vector_ops.cpp:434-455 | Exactly the k nearest positions with their distances in nondecreasing order. |
| `VectorOps.PartialSortShowsBest` | src/core/vector_ops.cpp:449-454 | A permutation whose first k places are in order and hold nothing farther than the rest shows the k best. |
| `TextProcessing.Tokenize` | src/hybrid/bm25_engine.cpp:31-50 | The scanning loop ends with the tokens of the text, which the next two rows characterise. |
| `TextProcessing.TokensConserve` | src/hybrid/bm25_engine.cpp:31-50 | Tokens are non-empty, and together they are the token characters of the text, in order. |
| `TextProcessing.TokensAreMaximalRuns` | src/hybrid/bm25_engine.cpp:31-50 | The tokens of a text are, in order, exactly its longest runs of letters, digits, hyphens and underscores: two of them are always separated, and no token character is left out. |
| `TextProcessing.ProcessText` | src/hybrid/bm25_engine.cpp:79-105 | Terms of a text: lower-cased, short words and stop words dropped before stemming, in order. |
| `TextProcessing.TermsAreKeptTokens` | src/hybrid/bm25_engine.cpp:79-105 | The terms are, in order, the tokens that after folding are long enough and no stop words, folded and then stemmed. |
| `TextProcessing.StemDropsOneEnding` | src/hybrid/bm25_engine.cpp:52-70 | Stemming takes at most one of the endings ing, ed and s from a word of more than three letters, and never the s of ss. |
| `Bm25Index.DocumentCounts` | src/hybrid/bm25_engine.cpp:134-150 | The record of a document holds exactly its words, each as often as it occurs, with the places where it does, and their number as its length. |
| `Bm25Engines.BM25Engine.AddDocument` | src/hybrid/bm25_engine.cpp:124-164 | Errors for known ids and texts without terms, with nothing changed; otherwise the document is stored with its counted terms and the index becomes the old one with it; the invariant holds. |
| `Bm25Engines.BM25Engine.RemoveDocument` | src/hybrid/bm25_engine.cpp:235-272 | Fails exactly on unknown ids; otherwise the document leaves postings, frequencies and totals; the invariant holds. |
| `Bm25Engines.BM25Engine.UpdateDocument` | src/hybrid/bm25_engine.cpp:274-284 | Remove, then add; an error exactly when the new text has no terms. |
| `Bm25Index.AddKeepsMirror` | src/hybrid/bm25_engine.cpp:124-164 | Adding a new document keeps postings, frequencies, totals and average determined by the documents. |
| `Bm25Index.RemoveKeepsMirror` | src/hybrid/bm25_engine.cpp:235-272 | So does removing one, and no counter underflows. |
| `Bm25Index.RunMirrors` | src/hybrid/bm25_engine.cpp:124-164 | After every run of additions, removals and updates the index mirrors its documents, which are the survivors of the run. |
| `Bm25Index.MirrorIsFromScratch` | src/hybrid/bm25_engine.cpp:124-164 | An index that mirrors its documents equals, up to the order of posting lists, what indexing their texts in any order builds. |
| `Bm25Index.RunEqualsFromScratch` | src/hybrid/bm25_engine.cpp:235-284 | Every run leaves what indexing only the surviving texts from scratch would have built. |
| `Bm25Index.UpdateWithoutTermsDeletes` | src/hybrid/bm25_engine.cpp:274-284 | Updating an indexed document keeps it if and only if the new text has terms: otherwise an error is returned and the old document is gone. |
| `Bm25Engines.ScorePostings` | src/hybrid/bm25_engine.cpp:191-200 | Walking a posting list credits each of its documents once with its score for the term and leaves the others alone. |
| `Bm25Engines.UsualWeightsDefine` | src/hybrid/bm25_engine.cpp:191-197 | With k1 >= 0 and 0 <= b <= 1 no score divides by zero. |
| `Bm25Engines.CreditsNextTerm` | src/hybrid/bm25_engine.cpp:181-201 | Crediting the documents of the next query term turns partial direct scores over n terms into those over n + 1. |
| `Bm25Engines.BM25Engine.Search` | src/hybrid/bm25_engine.cpp:166-223 | For all weights under which no score divides by zero: with documents and query terms, the answer is the top k of the direct per-document sums over query-term occurrences that reach the minimum score, each with its matched terms; the other cases are an empty answer and an error. |
| `Bm25Scores.HitShowsScore` | src/hybrid/bm25_engine.cpp:166-201 | The score of every hit is the sum over the occurrences of query terms of log((N - n + 0.5) / (n + 0.5) + 1) * (tf * (k1 + 1)) / (tf + k1 * (1 - b + b * length / mean length)), from the stored documents alone; a matched term is listed as often as the query has it. |
| `Bm25Scores.FormulaInFull` | src/hybrid/bm25_engine.cpp:188-197 | The three factors of a term weight are that one expression, with real division and every constant written out. |
| `Bm25Scores.AnswerIsTopK` | src/hybrid/bm25_engine.cpp:203-222 | By that formula: at most k documents, none twice, each with a query term and at least the score asked for, the best first; a document that qualifies is left out only by k others that score no less. |
| `Bm25Scores.LongerScoresLower` | src/hybrid/bm25_engine.cpp:194-197 | Of two documents that hold the query terms equally often, and at least one of them, the longer one scores strictly lower (k1 > 0, 0 < b <= 1). |
| `Bm25Scores.MoreFrequentScoresHigher` | src/hybrid/bm25_engine.cpp:192-197 | Of two documents of the same length, one that holds every query term at least as often and one of them more often scores strictly higher. |
| `Bm25Scores.RarerWeighsMore` | src/hybrid/bm25_engine.cpp:188-197 | In one document, of two equally frequent terms the one that fewer documents hold weighs more, for an increasing logarithm. |
| `Bm25Scores.MeanLengthIsNeutral` | src/hybrid/bm25_engine.cpp:194-195 | In a document of mean length the norm is one. |
| `Bm25Engines.RankedHitsAreBest` | src/hybrid/bm25_engine.cpp:203-222 | Collected, sorted by score and cut to k, the hits are the best k of the direct scores. |
| `Bm25Persistence.EscapeNewlines` | src/hybrid/bm25_engine.cpp:329-334 | The in-place replacement loop ends and escapes every newline. |
| `Bm25Persistence.UnescapeNewlines` | src/hybrid/bm25_engine.cpp:412-416 | The in-place replacement loop ends and replaces every backslash-n pair from left to right. |
| `Bm25Persistence.EscapedNewline` | src/hybrid/bm25_engine.cpp:330-333 | A newline is written as a backslash and an n, and read back; other characters stay. |
| `Bm25Persistence.RoundTripExactly` | src/hybrid/bm25_engine.cpp:329-334 | Unescaping inverts escaping if and only if the text holds no literal backslash-n pair. |
| `Bm25Persistence.ParseDocumentLine` | src/hybrid/bm25_engine.cpp:402-416 | Parsing a printed document line gives its id and its content unescaped. |
| `Bm25Persistence.LoadRebuilds` | src/hybrid/bm25_engine.cpp:397-424 | Loading what was saved rebuilds, in file order, the index of the unescaped contents; it fails exactly when one of them has no terms left. |
| `Bm25Persistence.LoadAfterSave` | src/hybrid/bm25_engine.cpp:304-430 | Load after save gives back the same documents if and only if no content holds a literal backslash-n pair, and then the same index up to the order of posting lists. |
| `Bm25Persistence.Save` | src/hybrid/bm25_engine.cpp:325-337 | The document section: one line per document, in some order, and the end mark. |
| `Bm25Persistence.SectionLayout` | src/hybrid/bm25_engine.cpp:326-337 | A document line holds id, length and escaped content between tabs; DOCUMENTS_END follows the last. |
| `Bm25Persistence.Load` | src/hybrid/bm25_engine.cpp:396-424 | The document section is read successfully exactly when every parsed line can be added, and then the engine holds what the lines describe. |
| `Bm25Files.SaveFile` | src/hybrid/bm25_engine.cpp:304-343 | The whole file: header, the five settings and three statistics as key=value lines, start mark, document section. |
| `Bm25Files.FileLayout` | src/hybrid/bm25_engine.cpp:310-325 | The text of the file up to the documents, line by line: BM25_ENGINE_V1, the eight key=value lines, DOCUMENTS_START. |
| `Bm25Files.LoadFile` | src/hybrid/bm25_engine.cpp:345-430 | An error for another header or a document that cannot be added, an exception for a setting that is no number; otherwise an engine with the settings read, defaults for those missing, and the documents of the section. |
| `Bm25Files.FileReadsBack` | src/hybrid/bm25_engine.cpp:350-391 | A saved file is split at its start mark again, and all settings come back. |
| `Bm25Files.SaveAndLoad` | src/hybrid/bm25_engine.cpp:304-430 | Saving an engine and loading the file gives the same settings always, and the same documents if and only if no content holds a literal backslash-n pair, and then the same index up to the order of posting lists. |
| `KMeans.FindNearest` | src/quantization/product_quantizer.cpp:306-322 | The first centroid at the smallest squared distance. |
| `KMeans.CostBound` | src/quantization/product_quantizer.cpp:109-127 | No assignment costs less than the distortion. |
| `KMeans.NearestAttains` | src/quantization/product_quantizer.cpp:109-127 | Assigning each vector to a nearest centroid attains it. |
| `KMeans.MeanMinimises` | src/quantization/product_quantizer.cpp:129-146 | The mean of a cluster minimises the sum of squared distances to its members. |
| `KMeans.Iterate` | src/quantization/product_quantizer.cpp:108-147 | One Lloyd iteration, with empty clusters keeping their centroid, never increases the total distortion. |
| `KMeans.Seeds` | src/quantization/product_quantizer.cpp:79-102 | The k-means++ draw: each seed is a training vector, and new as long as there is a training vector that is not yet a seed. |
| `KMeans.WeightZero` | src/quantization/product_quantizer.cpp:87-97 | The weight kept for a vector, its distance to the nearest seed so far, is zero exactly when it is a seed already. |
| `KMeans.Train` | src/quantization/product_quantizer.cpp:72-150 | Training leads from its seeds to its result by exactly the number of Lloyd iterations asked for, each from the codebook before, and ends with a distortion no larger than that of the seeds. |
| `KMeans.RunMovesToMeans` | src/quantization/product_quantizer.cpp:108-147 | Every iteration of a training moves each centroid to the mean, sum by number, of the vectors that have it as the first of their nearest, and leaves it where it is when there are none. |
| `ProductQuantizers.ProductQuantizer.Train` | src/quantization/product_quantizer.cpp:42-70 | All validation errors in order with the quantizer unchanged; otherwise every codebook is where numIterations iterations lead from k of its own pieces of the data, and fits them at least as well as those. |
| `ProductQuantizers.FittedHoldsMeans` | src/quantization/product_quantizer.cpp:104-150 | With at least one iteration a trained codebook holds the means of the pieces nearest to the codebook before the last one; with none it holds pieces of the data. |
| `ProductQuantizers.ProductQuantizer.Encode` | src/quantization/product_quantizer.cpp:156-172 | State and dimension errors; otherwise one byte per piece, naming the first nearest centroid. |
| `ProductQuantizers.EncodingIsOptimal` | src/quantization/product_quantizer.cpp:156-172 | Among all numCentroids^numSubquantizers codes, none decodes to a vector nearer to the input. |
| `ProductQuantizers.ProductQuantizer.Decode` | src/quantization/product_quantizer.cpp:197-222 | State, length and code errors; otherwise the concatenated centroids. |
| `ProductQuantizers.ReencodingKeepsDecoded` | src/quantization/product_quantizer.cpp:156-222 | Encoding a decoded vector and decoding again gives the same vector. |
| `ProductQuantizers.SqDistIsPieceCost` | src/quantization/product_quantizer.cpp:228-250 | A squared distance is the sum over the pieces. |
| `ProductQuantizers.AdcIsDistanceToDecoded` | src/quantization/product_quantizer.cpp:228-250 | For valid codes the asymmetric sum is the squared distance from the query to the decoded vector. |
| `ProductQuantizers.ProductQuantizer.ComputeDistance` | src/quantization/product_quantizer.cpp:228-250 | The root of the asymmetric sum, in which invalid codes count nothing; for valid codes the distance to the decoded vector. |
| `ProductQuantizers.ProductQuantizer.PrecomputeDistanceTable` | src/quantization/product_quantizer.cpp:252-272 | Slot (piece, code) holds the squared distance of the query piece to that centroid. |
| `ProductQuantizers.ProductQuantizer.ComputeDistancePrecomputed` | src/quantization/product_quantizer.cpp:274-296 | With the table of a query the distance is the same as computed directly, for every code sequence. |
| `ThreadPool.StepKeepsInv` | src/core/thread_pool.cpp:117-144 | Every step of every thread keeps the invariant of the pool. |
| `ThreadPool.EveryRunInv` | src/core/thread_pool.cpp:49-144 | The invariant holds in every state of every interleaving. |
| `ThreadPool.StepConserves` | src/core/thread_pool.cpp:49-144 | Each accepted task is in exactly one of queued, running or finished, exactly once. |
| `ThreadPool.EveryRunInOrder` | src/core/thread_pool.cpp:59-67 | In every state the queue holds the youngest accepted tasks in order of acceptance: tasks[i] = accepted - length + i; and at most one notification per accepted task is under way. |
| `ThreadPool.StartedInOrder` | src/core/thread_pool.cpp:117-131 | In every interleaving tasks are started in order of acceptance without gaps, and the queue begins with the next one to start. |
| `ThreadPool.SingleWorkerFinishesInOrder` | src/core/thread_pool.cpp:117-144 | With one worker the tasks finish in the order 0, 1, 2, ... in which they were accepted. |
| `ThreadPool.QueueIsAttended` | src/core/thread_pool.cpp:59-67 | No lost wakeup: a non-empty queue always has an awake worker or a notification still to come. |
| `ThreadPool.WaitAllReturnsIdle` | src/core/thread_pool.cpp:109-115 | When wait_all returns, the queue is empty, nothing runs, and every task accepted so far has run exactly once. |
| `ThreadPool.BlockedCallerHasWork` | src/core/thread_pool.cpp:109-144 | While a caller of wait_all sleeps, some task is queued or some worker still has to settle, so it will be woken. |
| `ThreadPool.ExitedMeansAllRan` | src/core/thread_pool.cpp:30-41 | When all workers have exited, every accepted task has run exactly once. |
| `ThreadPool.StoppedPoolProgresses` | src/core/thread_pool.cpp:30-41 | After stop every step of the pool strictly lowers a measure. |
| `ThreadPool.StoppedPoolNotStuck` | src/core/thread_pool.cpp:117-144 | After stop, as long as a worker has not exited, some step of the pool is possible. |
| `ThreadPool.JoinAll` | src/core/thread_pool.cpp:30-41 | So the destructor ends, whatever finite number of steps callers of wait_all take in between, with all workers exited and every accepted task run exactly once. |
| `ParallelFor.ParallelFor` | src/core/thread_pool.cpp:72-97 | The chunks call the function on 0 to count-1 in order, each exactly once and nothing else; at most one chunk per thread and none empty; all but the last have count / threads indices, rounded up, and the last no more. |
| `ParallelFor.NothingOverflows` | src/core/thread_pool.cpp:76-85 | No product or sum that the loop forms exceeds count + threads - 1. |
| `Tokenizers.Tokenizer.LoadVocabulary` | src/embeddings/onnx_runtime.cpp:262-304 | Ids are line numbers among the non-empty trimmed lines; of repeated tokens the last one counts; success exactly when the four special tokens occur. |
| `Tokenizers.BasicTokenize` | src/embeddings/onnx_runtime.cpp:306-361 | The byte loop ends and splits at spaces, punctuation and multi-byte sequences. |
| `Tokenizers.BasicConserves` | src/embeddings/onnx_runtime.cpp:306-361 | Basic tokens lose nothing but white space and ASCII case. |
| `Tokenizers.BasicTokensAreBasic` | src/embeddings/onnx_runtime.cpp:306-361 | Each is a single mark or a non-empty run without punctuation. |
| `TokenizerLaws.BasicTokensByPlace` | src/embeddings/onnx_runtime.cpp:306-361 | The basic tokens are, in order, exactly the marks of the text, its multi-byte sequences and its longest runs of other characters in lower case; only white space lies between them. |
| `Tokenizers.WordpieceTokenize` | src/embeddings/onnx_runtime.cpp:363-407 | Ends, and takes at each position the longest piece in the vocabulary, or [UNK] for one character. |
| `TokenizerLaws.PiecesAreGreedy` | src/embeddings/onnx_runtime.cpp:363-407 | The word is cut from left to right; each piece is the longest from its cut that the vocabulary has, with ## in front inside the word, or [UNK] for one character where it has none. |
| `Tokenizers.PiecesReassemble` | src/embeddings/onnx_runtime.cpp:363-407 | When every position has a match the pieces, without their ## marks, spell the word, and the first is its longest prefix in the vocabulary. |
| `Tokenizers.UnkMeansUnmatched` | src/embeddings/onnx_runtime.cpp:383-399 | [UNK] appears if and only if some reached position has no match. |
| `Tokenizers.Tokenizer.Encode` | src/embeddings/onnx_runtime.cpp:409-456 | Start mark, as many piece ids as fit, end mark, padding; the result has max_length ids if and only if max_length >= 1 or no special tokens are added. |
| `TokenizerLaws.MarkedEncoding` | src/embeddings/onnx_runtime.cpp:409-456 | With special tokens and max_length >= 2: the id of [CLS], the ids of the first min(pieces, max_length - 2) pieces, that of [SEP], and that of [PAD] up to max_length. |
| `TokenizerLaws.BareEncoding` | src/embeddings/onnx_runtime.cpp:409-456 | Without special tokens: the ids of the first min(pieces, max_length) pieces, then [PAD]. |
| `TokenizerLaws.CrampedEncoding` | src/embeddings/onnx_runtime.cpp:432-448 | With special tokens and max_length 1 only [CLS]; with max_length 0 the limit wraps around and every piece follows [CLS]. |
| `Tokenizers.DecodeEncode` | src/embeddings/onnx_runtime.cpp:458-489 | If no [UNK] arises and nothing is cut, decoding an encoded text gives its basic tokens joined by single spaces. |
| `Sha256.PadMessage` | src/ingest/gold_standard_ingest.cpp:57-72 | The padding loop ends with a multiple of 64 bytes, and below 2^61 bytes it is the padding of section 5.1.1 of FIPS 180-4. |
| `Sha256.ZeroCountIsLeast` | src/ingest/gold_standard_ingest.cpp:61-66 | The number of zero bytes is the least that leaves room for the length. |
| `Sha256.PaddedInjective` | src/ingest/gold_standard_ingest.cpp:57-72 | Different messages have different paddings. |
| `Sha256.ExpandBlock` | src/ingest/gold_standard_ingest.cpp:76-93 | The message schedule of section 6.2.2 of FIPS 180-4, in an array filled in place, although the program adds its four words in the opposite order. |
| `Sha256.CompressBlock` | src/ingest/gold_standard_ingest.cpp:95-126 | Sixty-four rounds over eight variables and the final sums give the hash value after the block. |
| `Sha256.HashMessage` | src/ingest/gold_standard_ingest.cpp:73-127 | Block by block, the hash value of the whole padded message. |
| `Sha256.Compute` | src/ingest/gold_standard_ingest.cpp:50-135 | For every message under 2^61 bytes the hexadecimal digest of sections 5.1.1 and 6.2.2 of FIPS 180-4. |
| `Sha256Constants.PrimesAreFirst` | src/ingest/gold_standard_ingest.cpp:27-43 | The table of primes begins with 2, holds 64 primes, and none lies between two neighbours. |
| `Sha256Constants.RoundConstantsAreCubeRoots` | src/ingest/gold_standard_ingest.cpp:27-43 | K[t] is c mod 2^32 for the c with c^3 <= p * 2^96 < (c + 1)^3, where p is prime number t. |
| `Sha256Constants.InitialHashIsSquareRoots` | src/ingest/gold_standard_ingest.cpp:52-55 | Each initial word is c mod 2^32 for the c with c^2 <= p * 2^64 < (c + 1)^2, for the first eight primes. |
| `Sha256KnownAnswer.HexWordDigits` | src/ingest/gold_standard_ingest.cpp:128-134 | Every word prints as eight hexadecimal digits, the most significant first, leading zeros included. |
| `Sha256KnownAnswer.DigestOfAbc` | src/ingest/gold_standard_ingest.cpp:50-135 | The digest of abc is ba7816bf 8f01cfea 414140de 5dae2223 b00361a3 96177a9c b410ff61 f20015ad. |
| `MetadataIndexes.MetadataIndex.Insert` | src/index/metadata_index.cpp:43-67 | For any id and metadata: every index gains the posting, and all stay in step with the records if and only if an earlier record of the id has, in each indexed field, no text or the same one. |
| `MetadataIndexes.InsertMirrorsExactlyWhen` | src/index/metadata_index.cpp:43-67 | The same for one index: a posting under another text would stay behind. |
| `MetadataIndexes.MetadataIndex.Remove` | src/index/metadata_index.cpp:79-119 | For any id and metadata: every index loses the posting under the metadata given, empty entries go, and all stay in step if and only if that is what the id was recorded with, as far as it is indexed. |
| `MetadataIndexes.EraseMirrorsExactlyWhen` | src/index/metadata_index.cpp:79-119 | The same for one index. |
| `MetadataIndexes.MetadataIndex.Update` | src/index/metadata_index.cpp:69-77 | Removal and insertion; all indexes stay in step if and only if in each field the recorded text, if any, is that of the old or that of the new metadata given. |
| `MetadataIndexes.UpdateMirrorsExactlyWhen` | src/index/metadata_index.cpp:69-77 | The same for one index. |
| `MetadataIndexes.LateIndexMirrors` | src/index/metadata_index.cpp:19-31 | An index created after records were inserted is right if and only if none of them has a value in its field. |
| `MetadataIndexes.RangeWalkEndsExactlyWhen` | src/index/metadata_index.cpp:306-325 | Walking the ordered keys from the lower to the upper position meets the latter if and only if no key lies outside both bounds; so with the bounds the wrong way round a range is answered exactly when no key lies strictly between them, and otherwise the walk leaves the table. |
| `MetadataIndexes.MetadataIndex.QueryRange` | src/index/metadata_index.cpp:306-325 | Whenever the walk ends: the records whose number lies in the interval, which are none when the bounds are the wrong way round. |
| `MetadataIndexes.MetadataIndex.Query` | src/index/metadata_index.cpp:121-226 | A condition is answered as a linear scan of the records would; operators without code answer nothing. |
| `MetadataIndexes.EqualByField` | src/index/metadata_index.cpp:274-290 | An equality condition on date, type, asset, bias, source_file or content_hash finds the records with that value in that field, and on any other name nothing. |
| `MetadataIndexes.InIsUnionOfEquals` | src/index/metadata_index.cpp:210-219 | A list of values finds what an equality with any of them finds. |
| `MetadataIndexes.ComparisonsSplit` | src/index/metadata_index.cpp:135-208 | Any number splits the numeric records into those below it and those from it on, and into those up to it and those above; the lower part grows with the number; a range is what two of them share. |
| `MetadataIndexes.MetadataIndex.QueryAnd` | src/index/metadata_index.cpp:228-247 | The records in every scan; for no conditions nothing. |
| `MetadataIndexes.MetadataIndex.QueryOr` | src/index/metadata_index.cpp:249-261 | The records in some scan. |
| `MetadataIndexes.LoadKeepsAnswersExactly` | src/index/metadata_index.cpp:403-468 | Load after save keeps all answers if and only if the index is not numeric or no two texts parse to the same number; posting lists always survive. |
| `Chunkers.ChunkText` | src/ingest/gold_standard_ingest.cpp:480-511 | Ends for every overlap; the windows start at 0, leave no gap, never retreat and reach the end; chunks have 1 to max_chunk_size + 1 characters; dropping overlaps rebuilds the text. |
| `Chunkers.SentenceChunksByWindow` | src/ingest/gold_standard_ingest.cpp:480-511 | Each window ends with the text when that is in reach, else right after the last full stop in the second half of its reach, else at full size; the next starts overlap characters before that end, or at it when it would not move forward otherwise. |
| `Chunkers.SentenceChunkingHaltsExactlyWhen` | src/ingest/gold_standard_ingest.cpp:480-511 | The loop ends if and only if max_chunk_size >= 1 or the text is empty. |
| `Chunkers.SentenceEndNeverRetreats` | src/ingest/gold_standard_ingest.cpp:485-495 | A later window never ends before an earlier one, although each searches for its own full stop. |
| `Chunkers.DroppingOverlapsRebuilds` | src/ingest/gold_standard_ingest.cpp:497-508 | Chunks of windows that tile a text rebuild it when each drops what the one before already showed. |
| `Chunkers.ChunkFixed` | src/framework/rag_engine.cpp:77-103 | Wherever the loop ends: the same coverage, chunk lengths and reconstruction. |
| `Chunkers.WordChunksByWindow` | src/framework/rag_engine.cpp:77-103 | Each window ends with the text when that is in reach, else right after the last space in its reach, else at full size; the next starts overlap characters before that end, and the last one ends with the text. |
| `Chunkers.WordChunkingHaltsExactlyWhen` | src/framework/rag_engine.cpp:81-100 | On a text the loop ends if and only if every window it opens is the last or longer than the overlap. |
| `Chunkers.EveryTextHaltsExactlyWhen` | src/framework/rag_engine.cpp:77-103 | A configuration ends on every text if and only if the size is at least 1 and the overlap is 0, or 1 with size at least 2; the default of 512 with overlap 50 is not among them. |
| `Chunkers.StickingTextSticks` | src/framework/rag_engine.cpp:84-99 | For every other configuration there is a short word followed by letters on which it never ends. |
| `Chunkers.WordEndNeverRetreats` | src/framework/rag_engine.cpp:82-90 | A later window never ends before an earlier one. |
| `VectorStores.VectorStore.Add` | src/storage/mmap_store.cpp:698-737 | Dimension, duplicate and room errors with nothing changed for a reader; otherwise exactly one vector is added. |
| `VectorStores.VectorStore.AllocateSlot` | src/storage/mmap_store.cpp:629-660 | The slot handed out, freed last or never used, belongs to nobody; a full file doubles. |
| `VectorStores.VectorStore.Get` | src/storage/mmap_store.cpp:739-759 | Returns the vector stored under the id, and fails exactly on unknown ids. |
| `VectorStores.VectorStore.Remove` | src/storage/mmap_store.cpp:766-788 | Fails exactly on unknown ids; otherwise exactly that vector is gone. |
| `VectorStores.VectorStore.Compact` | src/storage/mmap_store.cpp:804-843 | Moving vectors into holes changes nothing a reader sees, and afterwards the slots in use are exactly the first ones. |
| `VectorStores.CompactionRound` | src/storage/mmap_store.cpp:813-836 | One round, from the largest hole down: the remaining holes are the only ones, and no two ids share a slot. |
| `Databases.VectorDatabase.AddVector` | src/database.cpp:463-497 | Dimension error with nothing changed; otherwise an id is drawn and the three parts change by the way it ends: stored in all, refused by the index (full, or the id known), rolled back from all, or, when the metadata line cannot be written, rolled back from index and vectors with the record left behind. |
| `Databases.VectorDatabase.Remove` | src/database.cpp:631-643 | Fails exactly when the index does not know the id, with nothing changed; otherwise all three parts forget it. |
| `Databases.VectorDatabase.UpdateMetadata` | src/database.cpp:607-610 | Replaces the record that the new metadata names; the id given beside it plays no part. |
| `Databases.VectorDatabase.Compact` | src/database.cpp:766-769 | Nothing a reader sees changes. |
| `Databases.MetadataStore.Add` | src/storage/mmap_store.cpp:910-914 | The record is entered whether or not its line can be written. |
| `Databases.InsertKeepsStep` | src/database.cpp:463-497 | Every insertion of a first session, failed or not, changes the ids known to the parts as its outcome says and keeps index and vector store in step, with every id ever used below the next one. |
| `Databases.StepAgreesExactlyWhen` | src/database.cpp:463-497 | One call keeps the three parts in agreement if and only if it is not an insertion that failed in the metadata store and not an update of an id without a record. |
| `Databases.RunKeepsKeys` | src/database.cpp:463-643 | In every run index and vector store know the same ids, all drawn already, and each has a record. |
| `Databases.OrphanExactlyWhen` | src/database.cpp:463-643 | A record has no vector if and only if some call entered it without one (a failed append, or an update of an id the index does not know) and no later insertion stored one under that id. |
| `Databases.RunAgreesExactlyWhen` | src/database.cpp:463-643 | After any run all three parts know the same ids if and only if every record entered without a vector got one later; removals do not repair it. |
| `Databases.AppendFailureStays` | src/database.cpp:463-497 | After an insertion whose metadata line could not be written they never agree again. |
| `Databases.Open` | src/database.cpp:112-159 | Opening existing files gives the loaded index, the records, no vectors, and the number of records plus one as next id, or the error of the index file. |
| `Databases.ReopeningKeys` | src/database.cpp:121-159 | After reopening, the index knows every id it ever held, removed ones included, and the vector store none. |
| `Databases.ReopenedIdsFreshExactlyWhen` | src/database.cpp:158-159 | The ids drawn after reopening are all new to the index if and only if no id that the index ever held, removed ones included, exceeds the number of records. |
| `Databases.ReopenedIdClashesExactlyWhen` | src/database.cpp:158-159 | The first insertion after reopening meets a known id if and only if the index ever held the number of records plus one. |
| `Databases.NothingLostExactlyWhen` | src/database.cpp:158-159 | Where only held ids have records, that is the case if and only if the held ids and the recorded ones are the same, namely 1 to n. |
| `Databases.ReopenedInStepExactlyWhen` | src/storage/mmap_store.cpp:597-598 | After reopening, index and vector store are in step if and only if the index never held anything. |
| `Databases.RemovedIdClashes` | src/database.cpp:158-159 | Three insertions, removal of id 3, files written and opened again: the next insertion draws 3 and is refused with InvalidVectorId. |
| `Databases.ApplyFilters` | src/database.cpp:548-596 | The loop returns the first kept results of the search, at most k (one where k is zero). |
| `Databases.FilteredIsSelection` | src/database.cpp:548-596 | The answer selects kept results in order, at most k for k >= 1; if it is shorter no kept result is missing. |
| `Databases.FilteredMeetsFilters` | src/database.cpp:564-586 | Every record shown meets the date range and bias filters, and with deduplication no two share a date. |
| `Databases.PlainQueryKeepsAll` | src/database.cpp:548-596 | Without those filters the result of the index passes through unchanged. |
| `Databases.VectorDatabase.QueryVector` | src/database.cpp:499-541 | Dimension error, or the filtered answer of a search for k, or of a filtered search for 2k when there are exact filters, with the beam width asked for, which stays in force afterwards. Every answer has at most k results (one where k is zero), none twice, each live and at its true distance, score + distance = 1, scores never rising, and meets every filter asked for. |
| `Databases.VectorDatabase.QueryIsExact` | src/database.cpp:499-596 | On a connected index with a live entry point, a query whose beam is as wide as the index and whose 6k cover it answers with the k nearest of the elements that have the type, date and asset asked for. |
| `Databases.NothingPassingMissed` | src/database.cpp:548-596 | When fewer than k results come back, none that the index found and that meets the date range and bias asked for is missing (without deduplication). |
| `Databases.BeforeIsLexicographic` | src/database.cpp:565-569 | Dates compare as strings: the smaller has the smaller character at the first difference, or ends there. |
| `CsvAdapter.ParseLine` | src/adapters/csv_adapter.cpp:158-178 | The loop toggles on quotes and splits at delimiters outside them. |
| `CsvAdapter.WriteField` | src/adapters/csv_adapter.cpp:201-219 | Quotes a field with delimiter, quote or newline in it, doubling its quotes. |
| `CsvAdapter.PrintedAddsQuotesOnly` | src/adapters/csv_adapter.cpp:201-219 | A field without delimiter, quote and newline is written as it is; any other stands between quotes, with each of its own quotes doubled and nothing else added. |
| `CsvAdapter.PrintedRowParses` | src/adapters/csv_adapter.cpp:158-219 | Parsing a printed row gives as many fields, each with its quote characters removed (delimiter different from quote). |
| `CsvAdapter.RowRoundTripExactlyWhen` | src/adapters/csv_adapter.cpp:158-219 | Printer and parser are inverse if and only if no field holds a quote character; section 2 of RFC 4180 asks for more. |
| `CsvAdapter.ParseContent` | src/adapters/csv_adapter.cpp:138-156 | Splits at newlines, skips empty lines if asked to, and parses each line. |
| `CsvAdapter.WrittenRowsParse` | src/adapters/csv_adapter.cpp:138-156 | Rows without newlines come back from a written file row by row without their quote characters. |
| `CsvAdapter.FileRoundTripExactlyWhen` | src/adapters/csv_adapter.cpp:138-219 | A written file is read back as it was if and only if no field holds a newline or a quote character, although the printer quotes for both. |

## Left out

- Rounding, NaN and infinities of floating point: distances and scores are reals, `log` and `sqrt` are parameters, and the largest float is a parameter that stands for "no distance".
- Integer widths: ids, sizes and counters are unbounded, except for the words of SHA-256 and the wrap-around of `max_length - 1` in the tokenizer.
- Bytes in files: files are sequences of lines, characters or cells; disk errors are outcomes decided outside, and a file mapping that is lost after growing is not modelled.
- HnswPersistence.Load: reading past the end of a truncated index file yields zeros here, where the program leaves its variables as they are.
- HnswIndexes.HnswIndex.RandomLevel: any level may be drawn; the distribution of levels and the expected cost of a search are not modelled.
- HNSW `allow_replace`, reuse of removed ids, `optimize`, statistics and `contains`.
- KMeans.Seeds: each seed may be any vector of positive weight; the probabilities of the draw are not modelled, nor how good the seeds are.
- ProductQuantizers: batch encoding, saving and loading, and the other quantizers.
- VectorOps: the AVX-512 and NEON kernels, elementwise operations, `normalize` and the projection matrix.
- Bm25Files.SaveAndLoad: printed weights are assumed to read back as they were, so the rounding of their decimal form is left out; stop words are the same on both sides, as in the program.
- Stop words are a parameter; keyword extraction, query rewriting and score fusion are not modelled.
- Sha256.Compute: nothing is said about messages of 2^61 bytes or more, whose bit length wraps around.
- Sha256: the word operations are a record of functions, instantiated with 32-bit vectors, and a sum of four words is one operation.
- ThreadPool.JoinAll: a scheduler that runs callers of wait_all forever and never a worker is left out.
- ThreadPool: results and exceptions of tasks, and tasks that submit tasks (their submissions are ordinary steps of the pool); a body that never returns is a worker that never takes its next step.
- Text and image encoders, the ONNX runtime and models.
- MetadataIndexes.MetadataIndex.Query: NotEqual, NotIn, Contains and StartsWith have no code in the program and answer nothing here as there.
- Chunkers: sentence, paragraph, semantic and recursive chunking, which split by regular expressions or concatenate pieces.
- Databases: prices, hashes and timestamps of a record are not represented; export and bulk operations are left out; locks are left out, so each call is one step.
- Databases: insertions after reopening are followed up to the first id the index knows; an id that was removed again in the later session would be a reused one.
- Databases.MetadataStore.Add: the text of the metadata file; reopening takes the records as they were at the last sync.
- CsvAdapter: the fixed header line, the serialisation of chunk metadata into one field, and the grouping of rows into chunks.
- Replication, sharding, the command line, REST server, web site, logging, telemetry, other adapters and stores.
