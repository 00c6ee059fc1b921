# Lost-and-found semantic search: a Dafny model

This project models the item store behind the lost-and-found search of `ai-sementic-machine`.
Found items are kept as metadata records. A search compares a lost-item description against
them and ranks them by bounded percentage scores. Three generations of the engine are modelled,
along with two small helpers.

- `semantic.dfy` (module `Semantic`) covers `SemanticEngine` in `app/core/semantic.py`.
  - It keeps an embedding index and the metadata list side by side.
  - At startup it loads both from two snapshot files, each on its own with a fallback.
  - `add_item` appends to both, writes to the document store as best effort, and takes a snapshot on every tenth item.
  - `load_from_mongodb` rebuilds both from the store, oldest first.
  - `search` asks the k-NN index for `min(limit, len)` neighbours, skips unusable positions, turns distances into [0, 100] scores and sorts.
  - Alignment of the index and the metadata is stated as something `add_item` and a complete rebuild preserve. The model also shows how startup and an aborted rebuild break it, and that `search` does not need it.
- `semantic_light.dfy` (module `SemanticLight`) covers `LightweightSemanticEngine` in `app/core/semantic_light.py`.
  - It holds metadata records and a TF-IDF vectorizer fitted on their descriptions, with a `fitted` flag.
  - It includes the text normaliser `_preprocess_text`, a Jaccard keyword score, and a four-band mapping of cosine similarity to a percentage.
  - The hybrid score is `0.85 * semantic + 0.10 * keyword + 5` for a matching category.
  - The candidate pool is the `2 * limit` most similar positions. It is filtered by category without regard to case, then sorted and truncated.
- `engine.dfy` (module `Engine`) covers the first `SemanticEngine` in `app/engine.py`.
  - It keeps the index and an item list.
  - `search` takes a fixed pool of ten neighbours, applies a category filter and a linear confidence, and stops once `limit` results are reached.
- `utils.dfy` (module `Utils`) covers `clean_text` in `app/core/utils.py`.
- `rl_agent.dfy` (module `RLAgent`) covers the table loading of `_initialize`, `get_state` and the Q-learning `update` of `RLRankingAgent` in `app/core/rl_agent.py`. The match dictionary `get_state` reads holds Python values (`None`, booleans, numbers, strings, containers) with their truth values.
- Shared definitions:
  - `common.dfy` holds records, vectors, k-NN hits and the oracle types.
  - `text.dfy` models Python's `str.isspace`, `lower`, `strip`, `split` and `' '.join`.
  - `ranking.dfy` models `list.sort(reverse=True)`, the slice `s[:n]` and `np.argsort(...)[::-1]`.
  - `store.dfy` models the `found_items` document collection.

Foreign code becomes oracles, which are function-typed fields or parameters:

- the sentence embedder is `embed`;
- the FAISS search is `knn`, which returns `(position, distance)` pairs;
- `np.exp` is `exp`;
- the TF-IDF cosine over a fitted corpus is `similarity`;
- whether `fit_transform` accepts a corpus is `fitAccepts`.

Store and disk failures are nondeterministic outcomes of the `Collection` and `Disk` methods. The database handle from `get_database()` is a `Collection?` parameter, where `null` means no connection.

Some behaviour of the code is easy to miss, and the model states it as written:

- The light engine's hybrid score is `0.85 * semantic + 0.10 * keyword`, plus 5 when the category matches.
- A store document without one of the metadata keys (or, in `semantic.py`, without a vector) stops the loop of `load_from_mongodb` with a `KeyError`, which the method catches. What was appended before it stays, and the rest is not read.
- The index and the metadata can be left with different lengths.
- The light engine's normaliser keeps only `[a-z0-9]` and whitespace.

## Model

| member | source | states |
|---|---|---|
| `Text.Lower` | ai-sementic-machine/app/core/utils.py:5 | no result is an upper-case ASCII letter; any other character is returned unchanged |
| `Text.LowerStr` | ai-sementic-machine/app/core/utils.py:5 | no upper-case ASCII letter is left, the length is kept and every other character stays in place |
| `Text.LStrip` | ai-sementic-machine/app/core/utils.py:5 | the result is a suffix that starts with a non-whitespace character; everything removed is whitespace |
| `Text.RStrip` | ai-sementic-machine/app/core/utils.py:5 | the result is a prefix that ends with a non-whitespace character; everything removed is whitespace |
| `Text.Strip` | ai-sementic-machine/app/core/utils.py:5 | the result is a slice of the input, no longer than it, that neither starts nor ends with whitespace |
| `Text.Split` | ai-sementic-machine/app/core/semantic_light.py:51 | every word `str.split()` yields is non-empty and free of whitespace |
| `Text.SplitLeadingSpace` | ai-sementic-machine/app/core/semantic_light.py:51 | any whitespace character in front of the text, a tab or a newline as well as a space, leaves the words unchanged |
| `Text.SplitTwoWords` | ai-sementic-machine/app/core/semantic_light.py:51 | two words separated by any one whitespace character split into exactly those two words |
| `Text.SplitContent` | ai-sementic-machine/app/core/semantic_light.py:51 | the words, read one after the other, are the input with its whitespace removed: every non-whitespace character is kept, in order |
| `Text.SplitJoin` | ai-sementic-machine/app/core/semantic_light.py:51 | `split()` of `' '.join(ws)` gives back `ws` for any list of words |
| `Text.Join` | ai-sementic-machine/app/core/semantic_light.py:51 | `split()` takes `' '.join(ws)` back to `ws` (`Text.SplitJoin`); joined `[a-z0-9]` words are single-spaced (`Text.JoinNormalized`) |
| `Text.JoinNormalized` | ai-sementic-machine/app/core/semantic_light.py:51-52 | joining `[a-z0-9]` words gives text of `[a-z0-9]` and single inner spaces; it is non-empty when there are words |
| `Utils.DeleteOthers` | ai-sementic-machine/app/core/utils.py:6 | each kept character survives exactly as often as it occurs; every other character is removed |
| `Utils.DeleteOthersSubsequence` | ai-sementic-machine/app/core/utils.py:6 | the deletion keeps the order of what it keeps (the result is a subsequence) |
| `Utils.CleanText` | ai-sementic-machine/app/core/utils.py:3-7 | output is `[a-z0-9]` or whitespace only; it is a subsequence of the lower-cased, stripped input and never longer; every allowed character of that input survives and no other does |
| `Utils.CleanTextUnchanged` | ai-sementic-machine/app/core/utils.py:5-6 | lower-case alphanumeric text with whitespace only inside is returned unchanged |
| `Utils.CleanTextTwice` | ai-sementic-machine/app/core/utils.py:5-6 | a second application changes nothing exactly when the first result has no whitespace at either end |
| `Utils.CleanTextAgain` | ai-sementic-machine/app/core/utils.py:3-7 | text over `[a-z0-9\s]` is left unchanged by `clean_text` exactly when it has no whitespace at either end |
| `Utils.CleanTextNotIdempotent` | ai-sementic-machine/app/core/utils.py:5-6 | for every lower-case letter or digit `c`, `"! c"` cleans to `" c"`, and cleaning that again gives `"c"`: the function is not idempotent |
| `Ranking.SortDesc` | ai-sementic-machine/app/core/semantic.py:199 | sorting with `reverse=True` gives a permutation (same multiset) in which the keys never increase |
| `Ranking.PyTake` | ai-sementic-machine/app/core/semantic_light.py:145 | `s[:n]` is a prefix of length `min(n, len)` for `n >= 0`, and of length `max(0, len + n)` for negative `n` |
| `Ranking.ArgSortDesc` | ai-sementic-machine/app/core/semantic_light.py:145 | the result holds every position of the similarities exactly once, with similarities non-increasing along it |
| `Ranking.TopAreHighest` | ai-sementic-machine/app/core/semantic_light.py:145 | no position outside the first `m` of the descending argsort has a higher similarity than one inside |
| `Store.ByCreatedAt` | ai-sementic-machine/app/core/semantic.py:136 | sorting by `created_at` keeps every document (same multiset), oldest first |
| `Store.Collection.InsertOne` | ai-sementic-machine/app/core/semantic.py:118 | the document is appended, or the call fails and the collection is unchanged |
| `Store.Collection.FindAllByCreatedAt` | ai-sementic-machine/app/core/semantic.py:136-137 | the answer is all documents oldest first, or the query fails |
| `Semantic.Disk.WriteIndex` | ai-sementic-machine/app/core/semantic.py:74-77 | on success the index file holds the index; on failure it is unchanged or truncated; the metadata file is untouched |
| `Semantic.Disk.WriteMetadata` | ai-sementic-machine/app/core/semantic.py:80-81 | on success the metadata file holds the list; on failure it is unchanged or truncated; the index file is untouched |
| `Semantic.Disk.RemoveIndex` | ai-sementic-machine/app/core/semantic.py:42-45 | the index file is removed, or an ignored failure leaves it unchanged |
| `Semantic.Disk.RemoveMetadata` | ai-sementic-machine/app/core/semantic.py:61-64 | the metadata file is removed, or an ignored failure leaves it unchanged |
| `Semantic.SemanticEngine.constructor` | ai-sementic-machine/app/core/semantic.py:20-68 | each file is loaded on its own; a missing or unreadable file gives empty; an unreadable file is deleted where possible; other files are left alone |
| `Semantic.Startup` | ai-sementic-machine/app/core/semantic.py:33-68 | each of the index and the metadata is its file's contents when stored and empty otherwise, independently of the other file |
| `Semantic.StartupMayMisalign` | ai-sementic-machine/app/core/semantic.py:33-68 | independent loading can yield an index and a metadata list of different lengths |
| `Semantic.SemanticEngine.SaveToDisk` | ai-sementic-machine/app/core/semantic.py:70-85 | every call is logged as a snapshot; the index is written first and the metadata only after that succeeded; a failure never escapes |
| `Semantic.SnapshotRoundTrip` | ai-sementic-machine/app/core/semantic.py:33-85 | after a snapshot that changed the metadata file to the saved list, the next startup reads back exactly the saved index and metadata |
| `Semantic.SemanticEngine.AddItem` | ai-sementic-machine/app/core/semantic.py:90-127 | one vector and the record `{id, description, category}` are appended; the length difference of index and metadata is kept, so alignment is preserved; the document with `index_position = len - 1` is stored or not; a snapshot is taken exactly when the new length is a multiple of 10; the input id is returned |
| `Semantic.RebuildFrom` | ai-sementic-machine/app/core/semantic.py:146-158 | never more records than vectors, nor more vectors than documents; the rest is `Semantic.RebuildShape` |
| `Semantic.RebuildShape` | ai-sementic-machine/app/core/semantic.py:146-158 | the rebuild runs to the end exactly when every document has a vector and the three keys; it then gives one vector and one record per document, position by position; a stopped rebuild leaves at most one vector more than records |
| `Semantic.RebuildStopped` | ai-sementic-machine/app/core/semantic.py:150-165 | once a `KeyError` stops the rebuild, later documents have no effect |
| `Semantic.RebuildMayMisalign` | ai-sementic-machine/app/core/semantic.py:151-158 | a document with a vector but no `item_id` leaves the index one entry ahead of the metadata |
| `Semantic.NewDocument` | ai-sementic-machine/app/core/semantic.py:110-117 | the stored document is well formed, reads back as the item and carries the vector, the time and the index position |
| `Semantic.RebuildOfAddedDocuments` | ai-sementic-machine/app/core/semantic.py:110-117 | a store holding only documents written by `add_item` rebuilds completely and aligned |
| `Semantic.RunRebuild` | ai-sementic-machine/app/core/semantic.py:150-158 | the loop computes the rebuild of the documents, stopping where a key is missing |
| `Semantic.SemanticEngine.LoadFromMongoDB` | ai-sementic-machine/app/core/semantic.py:129-165 | no store, a failed query or an empty store changes nothing; otherwise both sequences are the rebuild of the documents oldest first; a complete rebuild is aligned and then snapshotted; a stopped one takes no snapshot |
| `Semantic.Percentage` | ai-sementic-machine/app/core/semantic.py:190 | the distance-to-percentage conversion lies in [0, 100] |
| `Semantic.Collected` | ai-sementic-machine/app/core/semantic.py:179-196 | never more matches than hits; where they come from is `Semantic.CollectedFromHits` and `Semantic.CollectedComplete` |
| `Semantic.CollectedFromHits` | ai-sementic-machine/app/core/semantic.py:179-196 | every collected match is `items_metadata[idx]` for a hit whose `idx` is neither -1 nor out of range, carrying that hit's distance and score; there are no more matches than hits |
| `Semantic.CollectedComplete` | ai-sementic-machine/app/core/semantic.py:179-196 | every hit that is neither -1 nor out of range yields its match, whatever the other hits are |
| `Semantic.CollectedAllUsable` | ai-sementic-machine/app/core/semantic.py:180-182 | when no hit is -1 or out of range, each hit yields exactly one match |
| `Semantic.SemanticEngine.Search` | ai-sementic-machine/app/core/semantic.py:167-200 | empty metadata gives `[]`; otherwise the results are the sorted matches of the k-NN answer for `k = min(limit, len)`; each item comes from the metadata; scores lie in [0, 100], non-increasing; there are at most `k` results for a well-formed k-NN answer; none of this needs the index and metadata to be aligned |
| `SemanticLight.Preprocess` | ai-sementic-machine/app/core/semantic_light.py:47-52 | the output is single-spaced `[a-z0-9]` words with no edge space, has the words of the lower-cased input with punctuation replaced, and is a fixed point (the `Preprocess…` lemmas below) |
| `SemanticLight.ReplaceOthers` | ai-sementic-machine/app/core/semantic_light.py:50 | every character outside `[a-z0-9\s]` becomes a space; the others stay |
| `SemanticLight.WordsAreAlnum` | ai-sementic-machine/app/core/semantic_light.py:49-51 | after lowering and replacing, every word is made of `[a-z0-9]` |
| `SemanticLight.PreprocessNormalized` | ai-sementic-machine/app/core/semantic_light.py:47-52 | the output contains only `a-z`, `0-9` and single spaces, with no space at either end |
| `SemanticLight.PreprocessWords` | ai-sementic-machine/app/core/semantic_light.py:47-52 | the preprocessed text has exactly the words of the lower-cased, replaced input, so the same letters and digits in the same order |
| `SemanticLight.PreprocessIdempotent` | ai-sementic-machine/app/core/semantic_light.py:47-52 | preprocessing twice equals preprocessing once |
| `SemanticLight.PreprocessJoined` | ai-sementic-machine/app/core/semantic_light.py:49-52 | text joined from `[a-z0-9]` words is a fixed point of preprocessing |
| `SemanticLight.Tokens` | ai-sementic-machine/app/core/semantic_light.py:174-175 | the token set is exactly the set of words of the lower-cased text with punctuation replaced, each an `[a-z0-9]` word |
| `SemanticLight.Jaccard` | ai-sementic-machine/app/core/semantic_light.py:176 | the keyword score lies in [0, 100] and is 0 when the union of the token sets is empty |
| `SemanticLight.JaccardExtremes` | ai-sementic-machine/app/core/semantic_light.py:176 | the score is 100 exactly for equal non-empty token sets, and 0 exactly for disjoint ones |
| `SemanticLight.KeywordSymmetric` | ai-sementic-machine/app/core/semantic_light.py:174-176 | the keyword score is symmetric in query and description |
| `SemanticLight.KeywordScore` | ai-sementic-machine/app/core/semantic_light.py:174-176 | the keyword score lies in [0, 100]; it is 0 exactly when no token is shared and 100 exactly when both token sets are equal and non-empty |
| `SemanticLight.Band` | ai-sementic-machine/app/core/semantic_light.py:161-171 | the banded percentage is clamped to [0, 100] |
| `SemanticLight.BandRanges` | ai-sementic-machine/app/core/semantic_light.py:161-171 | for similarities in [0, 1]: `>= 0.5` maps to [85, 100]; [0.3, 0.5) to [70, 85); [0.15, 0.3) to [50, 70); below 0.15 to [0, 50) |
| `SemanticLight.BandMonotone` | ai-sementic-machine/app/core/semantic_light.py:161-171 | a higher similarity never gets a lower percentage |
| `SemanticLight.Hybrid` | ai-sementic-machine/app/core/semantic_light.py:181-184 | with both inputs in [0, 100] the final score lies in [0, 100]; a category match adds the 5 points |
| `SemanticLight.SameCategory` | ai-sementic-machine/app/core/semantic_light.py:154 | equal categories always match; matching categories have the same length, since only ASCII letters change case |
| `SemanticLight.Scored` | ai-sementic-machine/app/core/semantic_light.py:159-184 | a result's score lies in [0, 100]; it keeps its record and similarity; the bonus applies exactly when the filter is active and the categories agree without regard to case |
| `SemanticLight.Top` | ai-sementic-machine/app/core/semantic_light.py:145 | the pool holds valid positions, `min(2 * limit, n)` of them for `limit >= 0` |
| `SemanticLight.Candidates` | ai-sementic-machine/app/core/semantic_light.py:147-196 | there are no more candidates than pool positions; every score lies in [0, 100]; every candidate has the bonus exactly when a filter is active, and then the filter's category |
| `SemanticLight.CandidatesFrom` | ai-sementic-machine/app/core/semantic_light.py:147-159 | every candidate is the record at a pool position inside the metadata, scored with that position's similarity |
| `SemanticLight.CandidatesGathered` | ai-sementic-machine/app/core/semantic_light.py:147-196 | the candidates are the entries of the pool positions concatenated in pool order, each position contributing nothing or its one scored entry |
| `SemanticLight.CandidatesComplete` | ai-sementic-machine/app/core/semantic_light.py:147-196 | with or without a filter, every pool position that names a record the filter accepts yields that record's scored entry |
| `SemanticLight.CandidatesUnfiltered` | ai-sementic-machine/app/core/semantic_light.py:148-156 | without a filter, every pool position inside the metadata yields a candidate |
| `SemanticLight.CollectCandidates` | ai-sementic-machine/app/core/semantic_light.py:147-196 | the loop computes the candidates of the pool |
| `SemanticLight.Ranked` | ai-sementic-machine/app/core/semantic_light.py:199-201 | sort-and-truncate keeps only candidates, best first, `min(limit, n)` of them for `limit >= 0` |
| `Ranking.SortedSplit` | ai-sementic-machine/app/core/semantic_light.py:199-201 | in a descending sort, every element before a cut has a key no lower than any element after it |
| `Ranking.PrefixOutranks` | ai-sementic-machine/app/core/semantic_light.py:199-201 | a prefix of a descending sort of a list outranks every element of the list it leaves out |
| `SemanticLight.RankedBest` | ai-sementic-machine/app/core/semantic_light.py:199-201 | no candidate the truncation drops scores higher than one it keeps |
| `SemanticLight.SearchResults` | ai-sementic-machine/app/core/semantic_light.py:129-201 | results come only from the `2 * limit` most similar positions; each score lies in [0, 100]; with a filter every result has its category (case-insensitively) and the +5; the list is sorted best first; there are at most `limit` results for `limit >= 0` |
| `SemanticLight.NegativeLimitKeepsResults` | ai-sementic-machine/app/core/semantic_light.py:145-201 | a negative `limit` still returns results: with four records and `limit = -1`, one result |
| `SemanticLight.RecordsFrom` | ai-sementic-machine/app/core/semantic_light.py:101-107 | never more records than documents; what the records are and when the load stops is `SemanticLight.RecordsShape` |
| `SemanticLight.RecordsShape` | ai-sementic-machine/app/core/semantic_light.py:101-107 | the loaded records are those of the leading documents, in order; the load runs to the end exactly when every document has the three keys |
| `SemanticLight.RecordsStopped` | ai-sementic-machine/app/core/semantic_light.py:102-117 | once a `KeyError` stops the load, later documents have no effect |
| `SemanticLight.CollectRecords` | ai-sementic-machine/app/core/semantic_light.py:101-107 | the loop computes the records, stopping where a key is missing |
| `SemanticLight.NewDocument` | ai-sementic-machine/app/core/semantic_light.py:70-77 | the stored document has the three keys, reads back as the item, has no vector and carries the given time |
| `SemanticLight.RecordsOfAddedDocuments` | ai-sementic-machine/app/core/semantic_light.py:70-107 | a store holding only documents written by `add_item` loads completely |
| `SemanticLight.Descriptions` | ai-sementic-machine/app/core/semantic_light.py:124 | the descriptions are the records' descriptions, position by position |
| `SemanticLight.LightweightSemanticEngine.constructor` | ai-sementic-machine/app/core/semantic_light.py:25-45 | there are no records, no fitted vectors, and the vectorizer is not fitted |
| `SemanticLight.LightweightSemanticEngine.FitVectorizer` | ai-sementic-machine/app/core/semantic_light.py:119-127 | empty metadata changes nothing; otherwise the vectorizer is fitted on the descriptions and `fitted` is set, unless `fit_transform` raises, which changes nothing |
| `SemanticLight.LightweightSemanticEngine.AddItem` | ai-sementic-machine/app/core/semantic_light.py:54-81 | one record is appended and earlier ones are kept; `fitted` becomes false; the document is stored or not; the input id is returned |
| `SemanticLight.LightweightSemanticEngine.LoadFromMongoDB` | ai-sementic-machine/app/core/semantic_light.py:83-117 | no store, a failed query or an empty store changes nothing; otherwise the records are rebuilt from the documents oldest first; a complete rebuild the vectorizer accepts ends fitted on the new records; a stopped one keeps the old `fitted` flag and fitted corpus |
| `SemanticLight.LightweightSemanticEngine.Search` | ai-sementic-machine/app/core/semantic_light.py:129-201 | empty metadata gives `[]`; a stale vectorizer is refitted first, on the current descriptions, and a refit that raises makes the search raise; the answer is the ranked candidates of the pool under the fitted corpus; a fitted engine stays fitted |
| `Engine.Confidence` | ai-sementic-machine/app/engine.py:51 | the confidence is at least 0, and at most 100 for a non-negative distance |
| `Engine.Matches` | ai-sementic-machine/app/engine.py:41-58 | there are no more matches than hits |
| `Engine.MatchesInHitOrder` | ai-sementic-machine/app/engine.py:41-58 | results keep the k-NN order: result `i` comes from hit `p[i]` with `p` strictly increasing; that hit names a stored item the filter accepts, and id, description and category are copied from it |
| `Engine.MatchesPrefix` | ai-sementic-machine/app/engine.py:41-61 | the results of leading hits are a prefix of the results of all hits |
| `Engine.MatchesStep` | ai-sementic-machine/app/engine.py:41-58 | one more hit appends its result, if it names a stored item the filter accepts, at the end |
| `Engine.AnswerAtStop` | ai-sementic-machine/app/engine.py:60-61 | once the results reach `limit` after an append made below it, they are the whole answer |
| `Engine.Answer` | ai-sementic-machine/app/engine.py:38-61 | the answer is a prefix of the matches, and all of them when it is shorter than `max(limit, 1)` |
| `Engine.AnswerBounds` | ai-sementic-machine/app/engine.py:38-61 | at most `limit` results for `limit >= 1`, at most one for `limit <= 0`, never more than the hits; each result comes from a usable hit |
| `Engine.MatchesFiltered` | ai-sementic-machine/app/engine.py:47-48 | with a filter, every result's category equals it case-insensitively |
| `Engine.EmptyIndexNoMatches` | ai-sementic-machine/app/engine.py:38-42 | when every hit is -1 (an empty index), there are no matches |
| `Engine.EmptyIndexAnswer` | ai-sementic-machine/app/engine.py:38-42 | a search on an empty index returns `[]` |
| `Engine.SemanticEngine.constructor` | ai-sementic-machine/app/engine.py:7-23 | a fresh engine has an empty index and no items |
| `Engine.SemanticEngine.AddItem` | ai-sementic-machine/app/engine.py:25-32 | one vector and the item are appended, alignment is preserved, and the call returns true |
| `Engine.SemanticEngine.Search` | ai-sementic-machine/app/engine.py:34-63 | the result is the first `min(n, max(limit, 1))` matches of the ten-neighbour answer, in k-NN order |
| `RLAgent.GetState` | ai-sementic-machine/app/core/rl_agent.py:38-42 | no state exactly when `semantic_score` is present but not a number or boolean (`//` raises `TypeError`); otherwise the first component is 1 exactly when `category_matched` is truthy in Python's sense, else 0, and the second is the band with `20 * b <= score < 20 * b + 20` |
| `RLAgent.GetStateScoreCases` | ai-sementic-machine/app/core/rl_agent.py:41 | a missing score is band 0; a score that is present but `None` or a string raises |
| `RLAgent.ScoreBands` | ai-sementic-machine/app/core/rl_agent.py:41 | scores in [0, 100) give bands 0 to 4; a score of 100 gives 5 |
| `RLAgent.MaxOf` | ai-sementic-machine/app/core/rl_agent.py:60 | `np.max` returns an element of the row that no element exceeds |
| `RLAgent.QUpdate` | ai-sementic-machine/app/core/rl_agent.py:50-62 | both states end up as keys, and every row keeps three entries |
| `RLAgent.WithRow` | ai-sementic-machine/app/core/rl_agent.py:52-53 | a state without a row gains a row of zeros; every existing row is kept |
| `RLAgent.WithRows` | ai-sementic-machine/app/core/rl_agent.py:52-56 | creating the rows of the two states keeps every existing row and gives zeros to the new ones |
| `RLAgent.QUpdateFrame` | ai-sementic-machine/app/core/rl_agent.py:52-62 | every other row is the one before the update (zeros for a state that had none), and so is every other entry of the updated row |
| `RLAgent.QUpdateValue` | ai-sementic-machine/app/core/rl_agent.py:59-61 | the new value is `current + 0.1 * (reward + 0.9 * max(next row) - current)`, with the maximum taken before the write |
| `RLAgent.QUpdateBetween` | ai-sementic-machine/app/core/rl_agent.py:61 | the new value lies between the current value and the target, and equals the current value exactly when the two agree |
| `RLAgent.QUpdateSelfLoop` | ai-sementic-machine/app/core/rl_agent.py:59-62 | when state and next state coincide, the maximum is read from the row before its entry is overwritten |
| `RLAgent.RLRankingAgent.constructor` | ai-sementic-machine/app/core/rl_agent.py:27-31 | the agent holds the given table, and every row has three entries |
| `RLAgent.RLRankingAgent.Initialize` | ai-sementic-machine/app/core/rl_agent.py:21-36 | no agent exactly when the table file is unreadable, since `pickle.load` raises with no `try`; otherwise a new agent whose table is the stored one, or empty when there is no file |
| `RLAgent.RLRankingAgent.Update` | ai-sementic-machine/app/core/rl_agent.py:50-62 | the new table is `QUpdate` of the old one, and all rows keep three entries |

## Left out

- Embedding model, FAISS, TF-IDF: foreign numeric code. These are the oracles `embed`, `knn`, `similarity` and `fitAccepts`. Vector dimensions and `float32` conversion are not modelled.
- Model loading and its fallback from the fine-tuned to the base model (`semantic.py` lines 22-28, `engine.py` lines 12-19): file I/O and foreign code. The loaded embedder is the `embed` parameter.
- `np.exp` at `semantic.py` line 190: floating point. It is the parameter `exp`, and only the clamp is modelled.
- `round(..., 2)` and `round(..., 4)` on scores and distances: floating point. Scores are `real`, so the sorts use unrounded scores.
- `Text.Lower`: lower-cases ASCII letters only. Python's Unicode `lower()` can also turn some non-ASCII letters into ASCII ones, for example U+212A (Kelvin sign) into `k`.
- `Ranking.ArgSortDesc`: orders equal similarities by ascending position. `np.argsort` is not stable, so after `[::-1]` its tie order may differ. Only the order of unequal similarities is stated.
- The singleton `__new__` and `async`/`await`: runtime plumbing. The engines are ordinary constructed objects, and calls run in sequence.
- `get_database()` and `app/core/database.py` (connection and ping): network I/O. The handle is the `Collection?` parameter. Store writes and queries may fail nondeterministically.
- `Store.ByCreatedAt`: documents with equal `created_at` keep their insertion order. MongoDB's `sort` promises no order among ties, so the model fixes one of the orders the store may return.
- The `print` progress and error messages in `semantic.py` and `semantic_light.py`: console output, with no effect on state or results.
- `datetime.utcnow()`: a clock. It is the parameter `now`.
- Disk artefacts (`faiss.read_index`, `faiss.write_index`, `pickle`, `os.makedirs`, `os.remove`): file I/O. They are the `Disk` class, whose files are missing, corrupt or stored, and the ghost `snapshots` log. A stored metadata file is assumed to hold a list of records.
- `Semantic.SemanticEngine.Search`: `k = min(limit, len)` is passed to the total k-NN oracle, so a FAISS error for `k <= 0` is not modelled: for `limit <= 0` a well-formed k-NN answer is empty and the model answers `[]`. The web route (app/api/routes.py lines 38-42) calls this `search` with a `category_filter` argument that it does not accept, so that call raises `TypeError` before any search runs; the route is outside the model.
- `Semantic.SemanticEngine.AddItem`, `SemanticLight.LightweightSemanticEngine.AddItem` and `Engine.SemanticEngine.AddItem`: the input is a record with all three keys, so the `KeyError` of an incomplete input dict is not modelled. The first engine also stores only the three fields of its item dict, not any extra keys.
- `RLAgent.GetState`: numbers are `real`, so the `OverflowError` of `int(inf // 20)` and NaN scores are not modelled, nor objects with their own `__bool__` or `__floordiv__`; every other value is `None`, a boolean, a number, a string or a container.
- `RLAgent.RLRankingAgent.Update`: requires `0 <= action < 3` and rows of three entries. numpy's negative indices (`-3..-1`) and rows of other lengths in a loaded pickle are not modelled.
- `RLRankingAgent.choose_action` (randomness) and `save` (file I/O), and with them the exploration rate `epsilon`, which only `choose_action` reads.
- The 70/30 vector/keyword formula with a ×1.05 category bonus in `test_refactored_system.py` (lines 120-123): no engine computes it.
- The `fitted` vectorizer's parameters (n-grams, stop words, document-frequency bounds): these live inside the `similarity` and `fitAccepts` oracles.
- The web layer, the fraud scorer, the graph module, the training scripts and configuration: outside the modelled core.
