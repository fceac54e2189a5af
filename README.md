# A verified model of the rag-v1.0 retrieval core

This project models in Dafny the parts of rag-v1.0 that decide what gets indexed and what gets retrieved, and proves properties about them:

- **Semantic chunker** (`semantic_chunker.dfy`). `SemanticChunker._chunk_with_overlap` does four things:
  - it splits a text into sentences;
  - it cuts wherever the similarity of neighbouring sentences drops below `threshold`;
  - it walks each cut back to make an overlap;
  - it then runs the two size passes, `_merge_tiny_chunks` (which mutates its list in place) and `_split_oversized_chunks`.

  The embedding model is replaced by its only observable output: `sim[i]`, the similarity of sentence `i` to sentence `i + 1`.
- **Corrected split pass** (`corrected_chunker.dfy`). As written, the split pass of `chunk` never cuts (see Findings). This module gives the chunker the split its comment describes: each chunk is kept as the list of sentences it was joined from, and an oversized chunk is cut between them.
- **Hybrid search** (`hybrid_search.py`):
  - min–max normalisation of the BM25 scores and of the Chroma distances, keyed by filename;
  - the weighted fusion and its ranking;
  - the metadata filters;
  - the shape of the result of `hybrid_search`, with the two searches passed in as functions.
- **BM25 corpus and selection** (`bm25.py`):
  - the module-level `documents` / `metadata` cache that `_load_data` fills once from the `*_chunks.json` files;
  - the top-k selection of `bm25_search`.

  BM25Okapi scoring is an oracle that returns one score per document.
- **Work partitioning** (`parallel_processor.py`): `split_pdf_list`.
- **Listener registry of the front end** (`query.ts`):
  - the `listeners` map of `RagApiClient`, with `on`, `off` and `emit`;
  - the not-connected branch of `sendQuerySocket`.

`builtins.dfy` gives the Python built-ins that the code relies on, with their own lemmas:

- `str.split()` (`Words`), `strip`, `lower`, `' '.join`, `endswith`;
- `in` on strings;
- slicing `[:k]` with negative `k`;
- floor division;
- list comprehensions with a condition (`Filter`).

Where the source loops and mutates, the model is a `method` with loop invariants that is proved equal to a specification function; the properties are then proved about that function. Examples:

- `MergeTinyChunks` keeps the `array` that the source mutates;
- `Corpus` is a class whose fields are the cache;
- `RagApiClient` is a class whose `listeners` field is a map.

The order among equal fused scores in `hybrid_search.py:70` is left open: the items come from a set, and a set has no iteration order. The model therefore states a ranking as a predicate (`Ranks`): a permutation of the dictionary's items in non-increasing score order.

The `(score, idx)` sort in `bm25.py:58` is different. Indices are distinct, so its order is total, and the insertion sort `SortDescending` gives exactly Python's order.

## Model

| member | source | states |
|---|---|---|
| Builtins.Words | rag-v1.0/preprocessing/chunking/simple_semantic_chunker.py:95 | `split()` gives at most as many words as the string has characters |
| Builtins.WordsShape | rag-v1.0/preprocessing/chunking/simple_semantic_chunker.py:95 | every word of `split()` is non-empty and has no whitespace; there are no words exactly when the string is all whitespace |
| Builtins.WordsOfJoin | rag-v1.0/preprocessing/chunking/simple_semantic_chunker.py:62 | splitting a space-joined list gives the words of the parts in order; joining neither loses, adds nor fuses words |
| Builtins.WordsOfSpace | rag-v1.0/preprocessing/chunking/simple_semantic_chunker.py:101 | the words of `a + " " + b` are the words of `a` followed by those of `b` |
| Builtins.Lower | rag-v1.0/hybrid_search/lexical_matching/bm25.py:28 | `lower()` keeps the length, leaves no upper-case ASCII letter, and keeps every other character in place |
| Builtins.StripFacts | rag-v1.0/preprocessing/chunking/simple_semantic_chunker.py:32 | the stripped string is the slice between an all-whitespace prefix and an all-whitespace suffix, keeps only characters of the input, and is empty exactly when the input is all whitespace |
| Builtins.Strip | rag-v1.0/preprocessing/chunking/simple_semantic_chunker.py:32 | the stripped string is a slice `s[a:b]` of the input with only whitespace before `a` and after `b`; it neither starts nor ends with whitespace, and is empty exactly for all-whitespace input |
| Builtins.IsSubstringAt | rag-v1.0/hybrid_search/hybrid_search.py:99 | Python's substring test `p in s` holds exactly when `p` occurs in `s` at some offset |
| Builtins.SliceTo | rag-v1.0/hybrid_search/hybrid_search.py:108 | `s[:k]` has length `min(k, len)` for `k >= 0` and `max(len + k, 0)` for `k < 0`, and is always a prefix of `s` |
| Builtins.FloorDiv | rag-v1.0/preprocessing/parallel_processor.py:13 | `//` rounds toward minus infinity for either sign of the divisor; a non-negative numerator and a positive divisor give a non-negative quotient |
| Builtins.Filter | rag-v1.0/hybrid_search/hybrid_search.py:99 | a comprehension with a condition keeps exactly the elements that satisfy it: every kept element is from the input and satisfies it, and every satisfying input element is kept |
| Builtins.FilterIsSubsequence | rag-v1.0/hybrid_search/hybrid_search.py:99-106 | a filtered list is an order-preserving subsequence of its input |
| Builtins.FilterFilter | rag-v1.0/hybrid_search/hybrid_search.py:98-106 | filtering twice is filtering once by the conjunction |
| SemanticChunker.Sentences | rag-v1.0/preprocessing/chunking/simple_semantic_chunker.py:32 | every sentence is non-empty and contains no terminator, with no whitespace at either end |
| SemanticChunker.NextTerminator | rag-v1.0/preprocessing/chunking/simple_semantic_chunker.py:32 | finds the first `.`, `!` or `?`, with none before it |
| SemanticChunker.PiecesHaveNoTerminator | rag-v1.0/preprocessing/chunking/simple_semantic_chunker.py:32 | no piece of `re.split(r'[.!?]+', text)` contains a terminator |
| SemanticChunker.StripNonEmptyShape | rag-v1.0/preprocessing/chunking/simple_semantic_chunker.py:32 | stripping terminator-free pieces and dropping the empty ones yields sentences only |
| SemanticChunker.BreakpointsExact | rag-v1.0/preprocessing/chunking/simple_semantic_chunker.py:45-48 | `b` is a breakpoint exactly when `1 <= b <= len(sim)` and `sim[b-1] < threshold`; the breakpoints are strictly increasing |
| SemanticChunker.Breakpoints | rag-v1.0/preprocessing/chunking/simple_semantic_chunker.py:42-48 | there are at most as many breakpoints as similarities |
| SemanticChunker.FindBreakpoints | rag-v1.0/preprocessing/chunking/simple_semantic_chunker.py:42-48 | the breakpoint loop computes exactly `Breakpoints(sim, threshold)` |
| SemanticChunker.BreakpointsFit | rag-v1.0/preprocessing/chunking/simple_semantic_chunker.py:45-48 | with `n` sentences, each breakpoint lies strictly between the previous one (or 0) and `n` |
| SemanticChunker.WalkBack | rag-v1.0/preprocessing/chunking/simple_semantic_chunker.py:66-70 | the backward walk from `o` stops within `[chunk_start, o]` and does not move when `o <= chunk_start` |
| SemanticChunker.Spans | rag-v1.0/preprocessing/chunking/simple_semantic_chunker.py:58-78 | the loop makes one chunk per breakpoint and at most one final chunk |
| SemanticChunker.OverlapStart | rag-v1.0/preprocessing/chunking/simple_semantic_chunker.py:66-70 | the `while` walk ends at `WalkBack(...)`, so `chunk_start <= overlap_start < breakpoint` |
| SemanticChunker.SpansUnfold | rag-v1.0/preprocessing/chunking/simple_semantic_chunker.py:58-72 | after a breakpoint the new `chunk_start` is `max(chunk_start, overlap_start)`; it lies in `[old chunk_start, bp - 1]`, so it never decreases |
| SemanticChunker.SpansLength | rag-v1.0/preprocessing/chunking/simple_semantic_chunker.py:58-78 | there is one span per breakpoint plus the final span; the first span starts at `chunk_start` and the last ends at `n` |
| SemanticChunker.SpansShape | rag-v1.0/preprocessing/chunking/simple_semantic_chunker.py:58-78 | every span is non-empty and within the sentences; span `k` ends at breakpoint `k`; the next span starts no earlier than span `k` and at or before `bp - 1`, so it re-includes sentence `bp - 1` |
| SemanticChunker.SpansCover | rag-v1.0/preprocessing/chunking/simple_semantic_chunker.py:58-78 | every sentence index from `chunk_start` to `n - 1` lies in some span |
| SemanticChunker.SpansOneSentenceOverlap | rag-v1.0/preprocessing/chunking/simple_semantic_chunker.py:66-72 | when no breakpoint's similarity exceeds `overlap_threshold`, every next chunk starts exactly at `bp - 1` |
| SemanticChunker.ThresholdBelowOverlapGivesOneSentence | rag-v1.0/preprocessing/chunking/simple_semantic_chunker.py:45-72 | when `threshold <= overlap_threshold`, the walk never runs, so every overlap is exactly sentence `bp - 1` |
| SemanticChunker.JoinSpans | rag-v1.0/preprocessing/chunking/simple_semantic_chunker.py:61-63 | one joined chunk per span |
| SemanticChunker.JoinSpansAt | rag-v1.0/preprocessing/chunking/simple_semantic_chunker.py:61-62 | chunk `k` is the space-join of the sentences of span `k` |
| SemanticChunker.RawChunks | rag-v1.0/preprocessing/chunking/simple_semantic_chunker.py:55-78 | the provisional chunks number the breakpoints, or one more with the final chunk |
| SemanticChunker.RawChunksShape | rag-v1.0/preprocessing/chunking/simple_semantic_chunker.py:55-78 | there are `len(breakpoints) + 1` chunks before post-processing; each is the join of a non-empty contiguous sentence slice; together they cover every sentence; consecutive chunks overlap |
| SemanticChunker.BuildRawChunks | rag-v1.0/preprocessing/chunking/simple_semantic_chunker.py:55-78 | the chunk-building loop, with its overlap walk, yields exactly the joined spans |
| SemanticChunker.BuildStep | rag-v1.0/preprocessing/chunking/simple_semantic_chunker.py:58-72 | one turn of the building loop emits the join of `sentences[chunk_start:bp]` and moves `chunk_start` to `max(chunk_start, overlap_start)` |
| SemanticChunker.Carry | rag-v1.0/preprocessing/chunking/simple_semantic_chunker.py:93-101 | the in-place carried list keeps its length and its first chunk |
| SemanticChunker.CarryUpdate | rag-v1.0/preprocessing/chunking/simple_semantic_chunker.py:100-101 | the assignment `chunks[i + 1] = current + " " + chunks[i + 1]` extends the carried prefix by one and leaves the rest of the list untouched |
| SemanticChunker.KeptLength | rag-v1.0/preprocessing/chunking/simple_semantic_chunker.py:97-108 | the chunks appended to `merged` before the last turn are no more than the chunks before it |
| SemanticChunker.KeptNotTiny | rag-v1.0/preprocessing/chunking/simple_semantic_chunker.py:97-108 | every chunk appended before the last turn has at least `min_chunk_words` words |
| SemanticChunker.AttachLastWords | rag-v1.0/preprocessing/chunking/simple_semantic_chunker.py:103-108 | the last turn (kept, appended to `merged[-1]`, or kept alone) adds exactly the words of the last chunk |
| SemanticChunker.CarryWords | rag-v1.0/preprocessing/chunking/simple_semantic_chunker.py:93-109 | the kept chunks and the carried last chunk together hold the words of the input in order |
| SemanticChunker.CarryWordsStep | rag-v1.0/preprocessing/chunking/simple_semantic_chunker.py:97-108 | one turn of the merge loop preserves the word sequence |
| SemanticChunker.MergeTiny | rag-v1.0/preprocessing/chunking/simple_semantic_chunker.py:85-111 | the merge never returns more chunks than it is given |
| SemanticChunker.MergeTinyKeepsWords | rag-v1.0/preprocessing/chunking/simple_semantic_chunker.py:85-111 | the concatenated word sequence of the merged list equals that of the input |
| SemanticChunker.MergeTinySizes | rag-v1.0/preprocessing/chunking/simple_semantic_chunker.py:85-111 | a list of at most one chunk is returned unchanged; a non-empty list gives a non-empty result; the result is a single chunk or every chunk has at least `min_chunk_words` words |
| SemanticChunker.MergeTinyChunks | rag-v1.0/preprocessing/chunking/simple_semantic_chunker.py:85-111 | the loop leaves the argument array holding the carried list and returns `MergeTiny` of the original contents |
| SemanticChunker.NextCut | rag-v1.0/preprocessing/chunking/simple_semantic_chunker.py:124 | returns the first cut at or after `m`, a position just after a terminator and at whitespace, with no cut between `m` and it, or the length when there is none |
| SemanticChunker.SpaceRun | rag-v1.0/preprocessing/chunking/simple_semantic_chunker.py:124 | measures the whole whitespace run that `\s+` consumes: it is all whitespace, and the character after it, if any, is not |
| SemanticChunker.SentencePieces | rag-v1.0/preprocessing/chunking/simple_semantic_chunker.py:124 | `re.split` gives at least one piece |
| SemanticChunker.SentencePiecesUnfold | rag-v1.0/preprocessing/chunking/simple_semantic_chunker.py:124 | either there is no cut and the chunk is its only piece, or the first piece ends at the first cut, a non-empty whitespace run follows, and the rest is split the same way |
| SemanticChunker.SentencePiecesWords | rag-v1.0/preprocessing/chunking/simple_semantic_chunker.py:124 | the pieces of `re.split(r'(?<=[.!?])\s+', chunk)` hold exactly the words of the chunk in order |
| SemanticChunker.PiecesStep | rag-v1.0/preprocessing/chunking/simple_semantic_chunker.py:124 | cutting at a whitespace run after a piece keeps the words |
| SemanticChunker.Pack | rag-v1.0/preprocessing/chunking/simple_semantic_chunker.py:125-142 | a non-empty sentence list gives at least one group |
| SemanticChunker.PackShape | rag-v1.0/preprocessing/chunking/simple_semantic_chunker.py:125-142 | the greedy packing concatenates back to the sentences; every group is non-empty and is a single sentence or within `max_chunk_words` words |
| SemanticChunker.PackExtendLast | rag-v1.0/preprocessing/chunking/simple_semantic_chunker.py:136-138 | appending a sentence that fits keeps every group within budget and the concatenation in order |
| SemanticChunker.JoinAllWords | rag-v1.0/preprocessing/chunking/simple_semantic_chunker.py:133-142 | joining the groups keeps the words of the sentences in order |
| SemanticChunker.PackSentences | rag-v1.0/preprocessing/chunking/simple_semantic_chunker.py:125-142 | the accumulate-and-emit loop over `current_chunk` / `current_words` computes exactly `JoinAll(Pack(...))` |
| SemanticChunker.SplitChunk | rag-v1.0/preprocessing/chunking/simple_semantic_chunker.py:117-142 | every chunk gives at least one piece |
| SemanticChunker.SplitChunkProperties | rag-v1.0/preprocessing/chunking/simple_semantic_chunker.py:117-142 | splitting a chunk keeps its words; every piece is within budget or is a single sentence of the chunk |
| SemanticChunker.SplitOversizedKeepsSmall | rag-v1.0/preprocessing/chunking/simple_semantic_chunker.py:117-121 | a list whose chunks are all within budget passes through unchanged |
| SemanticChunker.SplitOversizedAppend | rag-v1.0/preprocessing/chunking/simple_semantic_chunker.py:117 | the split pass works chunk by chunk: splitting `a + b` is splitting `a`, then `b` |
| SemanticChunker.SplitOversizedPassesSmall | rag-v1.0/preprocessing/chunking/simple_semantic_chunker.py:118-121 | a chunk within budget comes out unchanged and in place, whatever chunks surround it |
| SemanticChunker.SplitOversized | rag-v1.0/preprocessing/chunking/simple_semantic_chunker.py:113-144 | the split pass never returns fewer chunks than it is given |
| SemanticChunker.SplitOversizedProperties | rag-v1.0/preprocessing/chunking/simple_semantic_chunker.py:113-144 | the split pass keeps the word sequence; every output chunk is within budget or is one sentence of an input chunk |
| SemanticChunker.SplitOversizedChunks | rag-v1.0/preprocessing/chunking/simple_semantic_chunker.py:113-144 | the split loop computes exactly `SplitOversized(chunks, max_chunk_words)` |
| SemanticChunker.ChunkUnsplit | rag-v1.0/preprocessing/chunking/simple_semantic_chunker.py:34-52 | with at most one sentence, or with no similarity below `threshold`, the result is exactly `[text]`, untrimmed; otherwise there is a breakpoint |
| SemanticChunker.ChunkSizeAndWords | rag-v1.0/preprocessing/chunking/simple_semantic_chunker.py:80-83 | the final chunks are exactly the merged chunks; they hold exactly the words of the provisional chunks, in order; there is at least one, and either exactly one or each has at least `min_chunk_words` words |
| SemanticChunker.ChunkWithOverlap | rag-v1.0/preprocessing/chunking/simple_semantic_chunker.py:29-83 | `_chunk_with_overlap` (and so `chunk`) returns exactly `Chunk(text, sim, cfg)` |
| SemanticChunker.Chunk | rag-v1.0/preprocessing/chunking/simple_semantic_chunker.py:29-83 | `chunk(text)` returns at least one chunk |
| SemanticChunker.MergeTinyNoTerminator | rag-v1.0/preprocessing/chunking/simple_semantic_chunker.py:85-111 | the merge joins chunks with spaces, so chunks without `.`, `!` or `?` stay without them |
| SemanticChunker.NoTerminatorOnePiece | rag-v1.0/preprocessing/chunking/simple_semantic_chunker.py:124 | a chunk without terminators has no cut: `re.split` gives back the chunk alone |
| SemanticChunker.SplitChunkWhole | rag-v1.0/preprocessing/chunking/simple_semantic_chunker.py:117-142 | a chunk without terminators comes out of the split pass whole, however many words it has |
| SemanticChunker.SplitOversizedWhole | rag-v1.0/preprocessing/chunking/simple_semantic_chunker.py:113-144 | a list of chunks without terminators passes the split pass unchanged |
| SemanticChunker.ChunkNeverSplits | rag-v1.0/preprocessing/chunking/simple_semantic_chunker.py:32-83 | whenever the text is cut, `chunk` returns exactly the merged chunks: the split pass never cuts, because line 32 removed every terminator |
| SemanticChunker.OversizedChunkExample | rag-v1.0/preprocessing/chunking/simple_semantic_chunker.py:29-144 | for "a. b" with the two sentences unrelated and `min_chunk_words = max_chunk_words = 1`, `chunk` returns `["a", "a b"]`, and "a b" has two words |
| CorrectedChunker.JoinAppend | rag-v1.0/preprocessing/chunking/simple_semantic_chunker.py:62 | joining two non-empty sentence lists is joining their joins with one space |
| CorrectedChunker.SpanGroupsShape | rag-v1.0/preprocessing/chunking/simple_semantic_chunker.py:58-78 | the sentence lists of the spans join to the provisional chunks; each is non-empty and holds only sentences of the text |
| CorrectedChunker.CarryGroupsJoin | rag-v1.0/preprocessing/chunking/simple_semantic_chunker.py:93-101 | carrying sentence lists and then joining them gives the carried chunks |
| CorrectedChunker.KeptGroupsJoin | rag-v1.0/preprocessing/chunking/simple_semantic_chunker.py:97-108 | keeping the non-tiny sentence lists and then joining them gives the kept chunks |
| CorrectedChunker.AttachLastGroupNonEmpty | rag-v1.0/preprocessing/chunking/simple_semantic_chunker.py:103-108 | the last turn of the merge on sentence lists leaves every list non-empty |
| CorrectedChunker.AttachLastGroupJoin | rag-v1.0/preprocessing/chunking/simple_semantic_chunker.py:103-108 | the last turn on sentence lists, joined, is the last turn on the joined chunks |
| CorrectedChunker.MergeTinyGroupsJoin | rag-v1.0/preprocessing/chunking/simple_semantic_chunker.py:85-111 | merging sentence lists and then joining them gives exactly `_merge_tiny_chunks` of the joined chunks |
| CorrectedChunker.MergeTinyGroupsFrom | rag-v1.0/preprocessing/chunking/simple_semantic_chunker.py:85-111 | merging only regroups sentences: every sentence of a merged list is one of the input |
| CorrectedChunker.SplitGroupProperties | rag-v1.0/preprocessing/chunking/simple_semantic_chunker.py:117-142 | splitting one sentence list keeps the words of its join; every piece is within budget or is one of its sentences |
| CorrectedChunker.SplitGroupsWords | rag-v1.0/preprocessing/chunking/simple_semantic_chunker.py:113-144 | splitting sentence lists keeps the words of their joins, in order |
| CorrectedChunker.SplitGroupsBound | rag-v1.0/preprocessing/chunking/simple_semantic_chunker.py:113-144 | every chunk the corrected split emits is within budget or is a single sentence of the pool |
| CorrectedChunker.SplitGroupsSmall | rag-v1.0/preprocessing/chunking/simple_semantic_chunker.py:118-121 | sentence lists whose joins are all within budget are only joined |
| CorrectedChunker.CorrectedChunkProperties | rag-v1.0/preprocessing/chunking/simple_semantic_chunker.py:29-144 | the corrected chunker keeps the words of `chunk(text)` in order; each of its chunks is within `max_chunk_words` or is one sentence of the text; it agrees with `chunk` whenever no chunk of `chunk(text)` is over budget |
| CorrectedChunker.CorrectedChunkExample | rag-v1.0/preprocessing/chunking/simple_semantic_chunker.py:113-144 | on "a. b" with a one-word budget the corrected chunker returns `["a", "a", "b"]`, cutting the chunk that `chunk` leaves at two words |
| HybridSearch.MaxValue | rag-v1.0/hybrid_search/hybrid_search.py:17 | `max(scores)` is at least every score and is one of them |
| HybridSearch.MinValue | rag-v1.0/hybrid_search/hybrid_search.py:18 | `min(scores)` is at most every score and is one of them |
| HybridSearch.ScaleBounds | rag-v1.0/hybrid_search/hybrid_search.py:22-25 | a value in `[min, max]` scales into `[0, 1]`; the maximum goes to 1 and the minimum to 0 for scores, the other way round for distances |
| HybridSearch.FillKeys | rag-v1.0/hybrid_search/hybrid_search.py:21-25 | the normalised dictionary has exactly the filenames of the hits as keys |
| HybridSearch.FillLastWins | rag-v1.0/hybrid_search/hybrid_search.py:21-25 | a filename's value is the scaled value of its last hit, since later assignments overwrite earlier ones |
| HybridSearch.FillRange | rag-v1.0/hybrid_search/hybrid_search.py:21-25 | values in range give normalised values in `[0, 1]` |
| HybridSearch.FillAllOne | rag-v1.0/hybrid_search/hybrid_search.py:22-23 | when the maximum equals the minimum, every value is 1.0 |
| HybridSearch.NormalizedKeys | rag-v1.0/hybrid_search/hybrid_search.py:11-27 | the keys are exactly the hits' filenames; no hits give `{}` |
| HybridSearch.NormalizedLastWins | rag-v1.0/hybrid_search/hybrid_search.py:20-25 | each filename maps to the min–max scaling of its last hit |
| HybridSearch.NormalizedRange | rag-v1.0/hybrid_search/hybrid_search.py:11-47 | every normalised value is in `[0, 1]`; all are 1.0 when all values are equal |
| HybridSearch.NormalizedExtremes | rag-v1.0/hybrid_search/hybrid_search.py:40-45 | a highest score maps to 1 and a lowest to 0, and a lowest distance maps to 1 and a highest to 0, provided no later hit has the same filename |
| HybridSearch.Normalized | rag-v1.0/hybrid_search/hybrid_search.py:11-47 | no hits give `{}`, and the last hit's filename is always a key |
| HybridSearch.FillLoop | rag-v1.0/hybrid_search/hybrid_search.py:20-25 | the normalising loop computes `Fill` |
| HybridSearch.NormalizeBm25Scores | rag-v1.0/hybrid_search/hybrid_search.py:11-27 | `normalize_bm25_scores` returns `Normalized(Bm25, results)` |
| HybridSearch.NormalizeChromaDistances | rag-v1.0/hybrid_search/hybrid_search.py:29-47 | `normalize_chroma_distances` returns `Normalized(Chroma, results)` |
| HybridSearch.Weighted | rag-v1.0/hybrid_search/hybrid_search.py:61-67 | weight 1 gives the BM25 score, weight 0 the Chroma score, and equal scores give that score |
| HybridSearch.WeightedBounds | rag-v1.0/hybrid_search/hybrid_search.py:61-67 | for `w` in `[0, 1]`, `w·b + (1−w)·c` of two values in `[0, 1]` is in `[0, 1]` |
| HybridSearch.Fused | rag-v1.0/hybrid_search/hybrid_search.py:57-67 | the keys of `final_scores` are the union of both normalised key sets |
| HybridSearch.FusedProperties | rag-v1.0/hybrid_search/hybrid_search.py:57-67 | the keys of `final_scores` are the union of both key sets; a missing side counts 0; scores stay in `[0, 1]` for `w` in `[0, 1]`; `w = 1` gives the BM25 value and `w = 0` the Chroma value |
| HybridSearch.CombinedRange | rag-v1.0/hybrid_search/hybrid_search.py:52-67 | every fused score of normalised results lies in `[0, 1]` |
| HybridSearch.FuseScores | rag-v1.0/hybrid_search/hybrid_search.py:57-67 | the loop over `all_docs` computes `Fused` of the two dictionaries |
| HybridSearch.InsertPosition | rag-v1.0/hybrid_search/hybrid_search.py:70 | the insertion point comes after every entry at least as large and, in a non-increasing list, before every smaller one |
| HybridSearch.InsertLayout | rag-v1.0/hybrid_search/hybrid_search.py:70 | insertion puts the item at its position and shifts the rest by one |
| HybridSearch.InsertNonIncreasing | rag-v1.0/hybrid_search/hybrid_search.py:70 | inserting into a non-increasing list keeps it non-increasing |
| HybridSearch.InsertDistinct | rag-v1.0/hybrid_search/hybrid_search.py:70 | inserting a new key keeps the keys distinct |
| HybridSearch.InsertScores | rag-v1.0/hybrid_search/hybrid_search.py:70 | every entry after insertion carries its dictionary score |
| HybridSearch.InsertCovers | rag-v1.0/hybrid_search/hybrid_search.py:70 | every key inserted so far is listed |
| HybridSearch.InsertRanks | rag-v1.0/hybrid_search/hybrid_search.py:70 | inserting a new item keeps a ranking of the extended dictionary |
| HybridSearch.RankItems | rag-v1.0/hybrid_search/hybrid_search.py:70 | `sorted(final_scores.items(), key=score, reverse=True)` is a permutation of the items in non-increasing score order |
| HybridSearch.CombineWeightedResults | rag-v1.0/hybrid_search/hybrid_search.py:49-72 | returns the fused dictionary of the two normalisations and a ranking of it |
| HybridSearch.FilterTrue | rag-v1.0/hybrid_search/hybrid_search.py:98-106 | a filter that is switched off keeps its input |
| HybridSearch.ApplyFilters | rag-v1.0/hybrid_search/hybrid_search.py:95-108 | filtering never adds hits, and never returns more than `top_k` |
| HybridSearch.ApplyFiltersIsOneFilter | rag-v1.0/hybrid_search/hybrid_search.py:95-108 | the three passes equal one pass that keeps the hits passing every active filter, followed by the cut to `top_k` |
| HybridSearch.ApplyFiltersProperties | rag-v1.0/hybrid_search/hybrid_search.py:95-108 | the output is an order-preserving subsequence of at most `top_k` hits; each passes every active filter (substring case-insensitively, inclusive chunk range, minimum text length); with a large enough `top_k` every passing hit is kept |
| HybridSearch.HybridSearchQuery | rag-v1.0/hybrid_search/hybrid_search.py:74-122 | each search is asked for `2·top_k` hits and filtered; `final_scores` fuses the filtered hits with weight 0.5; `weighted_combination` is the first `top_k` of a ranking of `final_scores` |
| HybridSearch.ExampleLexicalNormalized | rag-v1.0/hybrid_search/hybrid_search.py:11-27 | BM25 scores 10, 6, 2 normalise to 1, 0.5, 0 |
| HybridSearch.ExampleVectorNormalized | rag-v1.0/hybrid_search/hybrid_search.py:29-47 | distances 0.1, 0.5, 0.9 normalise to 1, 0.5, 0 |
| HybridSearch.ExampleFused | rag-v1.0/hybrid_search/hybrid_search.py:57-67 | the worked fusion gives A:1, B:0.5, C:0, D:0 |
| HybridSearch.FusionExample | rag-v1.0/hybrid_search/hybrid_search.py:49-67 | normalising and fusing the worked example's hits gives A:1, B:0.5, C:0, D:0 |
| HybridSearch.FusionExampleTopTwo | rag-v1.0/hybrid_search/hybrid_search.py:70 | every ranking of the worked example starts with A, then B |
| Bm25.Tokens | rag-v1.0/hybrid_search/lexical_matching/bm25.py:28 | `lower().split()` gives at most as many tokens as the text has characters |
| Bm25.FileEntries | rag-v1.0/hybrid_search/lexical_matching/bm25.py:27-33 | one metadata entry per chunk of a file |
| Bm25.LoadedMeta | rag-v1.0/hybrid_search/lexical_matching/bm25.py:22-33 | every loaded chunk number is at least 1 |
| Bm25.LoadedMetaAppend | rag-v1.0/hybrid_search/lexical_matching/bm25.py:22-33 | loading a listing in two parts appends the second part's entries after the first's |
| Bm25.LoadedMetaSkipsOthers | rag-v1.0/hybrid_search/lexical_matching/bm25.py:22-23 | files not ending in `_chunks.json` contribute nothing |
| Bm25.LoadedMetaOfFile | rag-v1.0/hybrid_search/lexical_matching/bm25.py:27-33 | within one file, chunk `i` gets the file's `filename`, `chunk_number` `i + 1` and its text, in file order |
| Bm25.Corpus.constructor | rag-v1.0/hybrid_search/lexical_matching/bm25.py:9-11 | the cache starts empty and aligned |
| Bm25.Corpus.LoadData | rag-v1.0/hybrid_search/lexical_matching/bm25.py:13-33 | it keeps `documents` and `metadata` equally long, with each document the lower-cased split of its entry's text; a no-op when `documents` is non-empty; otherwise `metadata` is exactly the entries of the chunk files in listing order |
| Bm25.Corpus.SelectTop | rag-v1.0/hybrid_search/lexical_matching/bm25.py:55-69 | the sort-slice-filter loop returns the results for `TopScored(scores, top_k)`, read from `metadata` |
| Bm25.Corpus.Search | rag-v1.0/hybrid_search/lexical_matching/bm25.py:35-69 | `bm25_search` loads, scores the lower-cased split query with the oracle, and selects |
| Bm25.ScoredDocs | rag-v1.0/hybrid_search/lexical_matching/bm25.py:57 | one `(score, idx)` pair per document |
| Bm25.ScoredDocsDistinct | rag-v1.0/hybrid_search/lexical_matching/bm25.py:57 | the pairs have distinct indices |
| Bm25.BeforeTotal | rag-v1.0/hybrid_search/lexical_matching/bm25.py:58 | the reverse tuple order is total on pairs with distinct indices |
| Bm25.SortDescending | rag-v1.0/hybrid_search/lexical_matching/bm25.py:58 | sorting keeps the number of pairs |
| Bm25.InsertDescendingProperties | rag-v1.0/hybrid_search/lexical_matching/bm25.py:58 | inserting a pair with a new index into a ranking gives a ranking of the pairs plus it |
| Bm25.SortDescendingProperties | rag-v1.0/hybrid_search/lexical_matching/bm25.py:58 | `sort(reverse=True)` is a permutation in descending `(score, idx)` order |
| Bm25.InRankedIsDoc | rag-v1.0/hybrid_search/lexical_matching/bm25.py:57-58 | every ranked pair names a document and carries its score |
| Bm25.RankedPrefixAreDocs | rag-v1.0/hybrid_search/lexical_matching/bm25.py:57-60 | every pair of `scored_docs[:top_k]` names a document and carries its score |
| Bm25.TopNamesDocs | rag-v1.0/hybrid_search/lexical_matching/bm25.py:57-60 | every index in the cut ranking is a valid index into `metadata` |
| Bm25.TopScored | rag-v1.0/hybrid_search/lexical_matching/bm25.py:57-61 | every selected pair has a positive score, which is the score of the document it names |
| Bm25.FilterDescending | rag-v1.0/hybrid_search/lexical_matching/bm25.py:60-61 | dropping the non-positive pairs keeps the ranking order |
| Bm25.LeftOutRanksAfter | rag-v1.0/hybrid_search/lexical_matching/bm25.py:58-61 | a positive pair left out by the cut ranks after every selected pair |
| Bm25.TopScoredProperties | rag-v1.0/hybrid_search/lexical_matching/bm25.py:57-67 | at most `top_k` pairs, in descending `(score, idx)` order; every left-out positive document ranks after every reported one; with `top_k >= len(documents)`, or with fewer than `top_k` pairs reported, every positive document is reported |
| Bm25.TopScoredComplete | rag-v1.0/hybrid_search/lexical_matching/bm25.py:57-61 | when fewer than `top_k` pairs are reported, every document with a positive score is among them |
| Bm25.ShortCutHoldsPositive | rag-v1.0/hybrid_search/lexical_matching/bm25.py:58-61 | a cut of a descending ranking that keeps fewer than `top_k` positive pairs holds every positive pair |
| Bm25.FilterShortHasRejected | rag-v1.0/hybrid_search/lexical_matching/bm25.py:61 | a filter that keeps fewer elements than it is given rejects one of them |
| Bm25.SelectStep | rag-v1.0/hybrid_search/lexical_matching/bm25.py:60-67 | the pair in turn is reported exactly when its score is positive |
| Bm25.SelectedResults | rag-v1.0/hybrid_search/lexical_matching/bm25.py:57-67 | at most `top_k` results, each with a positive score equal to its document's score, and with text, filename and chunk number from `metadata[idx]`; scores are non-increasing |
| ParallelProcessor.BatchStarts | rag-v1.0/preprocessing/parallel_processor.py:23 | for a non-empty list every batch start is inside it, so the guard `start < len` never skips a batch |
| ParallelProcessor.Batches | rag-v1.0/preprocessing/parallel_processor.py:11-26 | an empty list or a negative count gives no batches; a non-empty list gives exactly `num_chunks` |
| ParallelProcessor.SplitPdfList | rag-v1.0/preprocessing/parallel_processor.py:11-26 | requires `num_chunks != 0` (the division); returns exactly `Batches(files, num_chunks)` |
| ParallelProcessor.BatchSeqPrefix | rag-v1.0/preprocessing/parallel_processor.py:16-24 | the first `k` batches cover exactly the first `k·size` files |
| ParallelProcessor.BatchSeqConcat | rag-v1.0/preprocessing/parallel_processor.py:16-24 | the batches concatenate back to the list |
| ParallelProcessor.BatchesConcat | rag-v1.0/preprocessing/parallel_processor.py:11-26 | concatenating the returned batches in order gives exactly the input list |
| ParallelProcessor.BatchSeqSizes | rag-v1.0/preprocessing/parallel_processor.py:17-21 | all batches but the last hold `size` files; the last holds the rest, at least `size` |
| ParallelProcessor.BatchesSizes | rag-v1.0/preprocessing/parallel_processor.py:17-21 | every batch but the last has `len // n` files; the last has `len − (n−1)·(len // n) >= len // n`; with fewer files than batches the earlier ones are empty and the last holds everything |
| QueryClient.IndexOf | rag-v1.0/frontend/src/api/query.ts:76 | `indexOf` is -1 exactly when the callback is absent, and otherwise the index of its first occurrence |
| QueryClient.RemoveFirst | rag-v1.0/frontend/src/api/query.ts:76-79 | `splice(index, 1)` removes one occurrence (length down by one, multiset minus one) when present, and nothing otherwise |
| QueryClient.RagApiClient.constructor | rag-v1.0/frontend/src/api/query.ts:21-22 | the registry starts empty and nothing has been sent |
| QueryClient.RagApiClient.On | rag-v1.0/frontend/src/api/query.ts:66-71 | `on` updates the registry to `AddListener` |
| QueryClient.RagApiClient.Off | rag-v1.0/frontend/src/api/query.ts:73-81 | `off` updates the registry to `RemoveListener` |
| QueryClient.RagApiClient.Emit | rag-v1.0/frontend/src/api/query.ts:83-88 | the `forEach` makes exactly the calls of `Dispatch` |
| QueryClient.RagApiClient.SendQuerySocket | rag-v1.0/frontend/src/api/query.ts:91-97 | when connected, the query is sent and nothing is emitted; when not connected, nothing is sent and a local `error` event with message "Not connected to server" is dispatched |
| QueryClient.AddListener | rag-v1.0/frontend/src/api/query.ts:66-71 | `on` adds the event to the registry and lengthens its list by one |
| QueryClient.RemoveListener | rag-v1.0/frontend/src/api/query.ts:73-81 | `off` keeps the registry's events, and shortens the list by one when the callback is in it |
| QueryClient.Dispatch | rag-v1.0/frontend/src/api/query.ts:83-88 | `emit` makes one call per callback registered for the event, none for an unknown event |
| QueryClient.AddListenerProperties | rag-v1.0/frontend/src/api/query.ts:66-71 | `on` appends to the end of the event's list, creating it if absent; a duplicate adds a second entry; no other event changes |
| QueryClient.RemoveListenerProperties | rag-v1.0/frontend/src/api/query.ts:73-81 | `off` removes only the first occurrence; an unknown event or an unregistered callback changes nothing; no other event changes; the key set stays the same |
| QueryClient.RemoveFirstAppended | rag-v1.0/frontend/src/api/query.ts:76-79 | removing a callback just pushed, from a list that did not hold it, restores the list |
| QueryClient.OffUndoesOn | rag-v1.0/frontend/src/api/query.ts:66-81 | `off` after `on` of a new callback restores the registry; the event's list is left empty if `on` created it |
| QueryClient.DispatchProperties | rag-v1.0/frontend/src/api/query.ts:83-88 | `emit` calls exactly the event's callbacks in registration order with the data, and makes no call for an event without a list |
| QueryClient.DispatchAfterOn | rag-v1.0/frontend/src/api/query.ts:66-88 | after `on`, `emit` makes the previous calls and then calls the new callback |
| QueryClient.DispatchOtherEvents | rag-v1.0/frontend/src/api/query.ts:66-88 | `on` and `off` for one event leave `emit` of every other event unchanged |

Helper lemmas without a row are single unfoldings or arithmetic steps used in the proofs above, such as `CarryStep`, `KeptSnoc`, `PackSnoc`, `CarryPrefixStep`, `FusedOverAdd`, `ResultsSnoc`, `BatchesStep`, `BatchEndWithin` and `SizeFacts`.

## Left out

- **Sentence embeddings.** `SentenceTransformer.encode` and `similarity` (`simple_semantic_chunker.py:19`, `:38-39`) are a foreign model. Their only use is `similarities[i][i + 1]`, which is taken as the input `sim`.
- **BM25Okapi scoring** (`bm25.py:49-53`) is a foreign library. It is an oracle that returns one score per document. On an empty corpus the library divides by zero, and that error is not modelled.
- **Floating point.** Scores, distances, similarities and weights are `real`, so IEEE rounding and NaN are not modelled.
- **`str.lower()`** is modelled for ASCII letters only. **`str.split()` / `strip()`** use Python's `isspace` set of characters. There is no Unicode case folding or normalisation.
- **File and directory I/O.** The `_load_data` reading is not modelled:
  - `os.listdir`, `open` and `json.load`;
  - a `KeyError` from a file lacking `filename` or `chunks`.

  The directory listing is an input: a sequence of (entry name, `filename`, `chunks`) in listing order.
- **The sockets and `fetch`** in `query.ts`:
  - `initializeSocket`, `getConversationHistory`, `queryRag` and `healthCheck`;
  - the socket's own `emit` (modelled only as the `sent` list);
  - `socket?.connected` (modelled as the `connected` field).
- **Callbacks are opaque identifiers.** Their effects are not modelled, so a callback that calls `on`/`off` during `emit` is not modelled either. `Emit` returns the sequence of calls it makes.
- **Concurrency and process management** in `parallel_processor.py`: `process_pdf_batch` and `process_all_pdfs_parallel`.
- **Search oracles.** `chroma_search` and `bm25_search` are functions given to `HybridSearchQuery` rather than calls.
- **Ties among equal fused scores** are not pinned, because `hybrid_search.py:70` sorts items that come from a set. A ranking is any permutation in non-increasing score order.
- **On these points the model follows the code:**
  - a single-sentence text, or one without breakpoints, comes back as `[text]` untrimmed;
  - the normalised and fused dictionaries are keyed by filename alone, so a filename's value is that of its last hit;
  - inside `chunk` the split pass never cuts (see Findings), so the minimum size that the merge pass establishes (`MergeTinySizes`) holds for the final chunks (`ChunkSizeAndWords`), while a chunk can exceed `max_chunk_words`.
- **ParallelProcessor.SplitPdfList** requires `num_chunks != 0`: the source divides by it and raises `ZeroDivisionError`, which the model does not represent as a result.
- **SemanticChunker.BuildRawChunks** appends the final chunk without the test `chunk_start < len(sentences)` (`simple_semantic_chunker.py:75`). The loop invariant `chunk_start < n` shows that the test always passes.
- **HybridSearch.NormalizedExtremes** states that the maximum maps to 1 and the minimum to 0 only for a hit whose filename no later hit repeats. An earlier hit with the same filename is overwritten (`hybrid_search.py:23-25`).
- **Bm25.Corpus.SelectTop** sorts a fresh sequence rather than the list in place. Nothing else refers to `scored_docs`.

## Findings

| source | as written | input that shows it | evidently intended | confidence | as-written member | corrected member |
|---|---|---|---|---|---|---|
| rag-v1.0/preprocessing/chunking/simple_semantic_chunker.py:124 | the split of an oversized chunk looks for whitespace after `.`, `!` or `?`, but line 32 has already removed every terminator from the sentences the chunk is joined from, so it never cuts and an oversized chunk is emitted whole | text "a. b", similarity 0.0 between the two sentences, `threshold` 0.02, `min_chunk_words` = `max_chunk_words` = 1: `chunk` returns `["a", "a b"]`, and "a b" has 2 words | an oversized chunk is cut between its sentences, so every chunk is within `max_chunk_words` or is a single sentence | not executed | SemanticChunker.OversizedChunkExample | CorrectedChunker.CorrectedChunkProperties |
