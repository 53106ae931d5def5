# A model of a retrieval-augmented question-answering pipeline

The pipeline has three in-process stages, and this project models each in
Dafny.

1. **Ingestion** (`Ingest`). `chunk_document` cuts a text into overlapping
   character windows. `process_documents` turns each chunk of each document
   into a record. The record keeps the document's metadata and adds
   `chunk_index` and `total_chunks`.
2. **Embedding** (`Embeddings`). `generate_embeddings` sends the texts to an
   embedding service in batches of `batch_size` and concatenates the
   answers. `embed_chunks` writes the vectors into the caller's chunk
   dictionaries in place.
3. **Answering** (`QaChain`). `build_context` numbers the retrieved hits as
   `[Source i: <source>]` parts and keeps parts while their running length
   fits a budget. It then joins the kept parts with newlines.
   `answer_question` wraps that context and the question in a fixed prompt,
   asks the chat model, and reports the distinct sources.

`Slicing` holds Python slicing (`s[lo:hi]` with negative and out-of-range
bounds) and the sliding-window loop. The chunker and the batcher both run
that loop. `Values` holds the metadata values, optional values and results,
and the decimal rendering of part numbers.

The embedding service, the vector search and the chat model are function
parameters. Each loop in the source is a Dafny `method` proved against a
specification function: `Chunks`, `ProcessedRecords`, `Embedded`/`Batches`
and `Context`, and, for the `zip` loop of `embed_chunks` (`StoreVectors`),
`LastIndex`. Lemmas then prove what the source promises about those
functions. The chunk dictionaries that `embed_chunks` mutates are objects of
class `ChunkDict`.

Nothing in `chunk_document` (src/ingest.py:70-84) checks
`overlap < chunk_size`, and this shapes the model:

- `ChunkDocument` takes the code's actual termination condition as its
  precondition.
- `LoopNeverExits` shows that the loop runs forever otherwise.
- `ChunkDocumentChecked` is the variant that refuses such arguments.

## Model

| member | source | states |
|---|---|---|
| Values.NatToString | src/qa_chain.py:37 | the rendering of the part number `{i}` is a non-empty string of decimal digits with no leading zero |
| Values.ParseNatToString | src/qa_chain.py:37 | the decimal rendering of a part number loses nothing: reading it back gives the number |
| Slicing.PySlice | src/ingest.py:82 | `s[lo:hi]` is never longer than `s`, and for an in-range start it is `s[lo..min(hi, len)]` |
| Slicing.OffsetIsProduct | src/ingest.py:84 | adding `step` to `start` once per pass puts window `k` at `k * step` |
| Slicing.WindowsAt | src/ingest.py:80 | window `k` exists exactly when its offset `start + k*step` is below `len(s)` (the loop guard) |
| Slicing.WindowAt | src/ingest.py:80-83 | window `k` is `s[start + k*step : start + k*step + size]` |
| Slicing.WindowsCount | src/ingest.py:80-84 | the window loop from 0 runs `ceil(len(s) / step)` times |
| Slicing.WindowShape | src/ingest.py:82 | with a positive size and an in-range start, a window is the plain subsequence `s[lo..min(lo+size, len)]`, non-empty and at most `size` long |
| Slicing.WindowsTile | src/embeddings.py:73-74 | when the step equals the size, the windows concatenate to exactly `s[start..]`, with no gap and no repetition |
| Ingest.ChunkDocument | src/ingest.py:44-86 | the loop returns `Chunks`: `[]` for empty content, `[content]` when `len(content) <= chunk_size`, otherwise the windows of `chunk_size` advancing by `chunk_size - overlap` |
| Ingest.ChunkAt | src/ingest.py:76-84 | on the long-content path chunk `k` is `content[k*step .. min(k*step + chunk_size, len)]`, and its start is inside the content |
| Ingest.LongContentChunks | src/ingest.py:76-84 | on the long-content path there are `ceil(len / step)` chunks and chunk `k` starts at `k * (chunk_size - overlap)` |
| Ingest.ChunkSizes | src/ingest.py:73-83 | every chunk is non-empty and at most `chunk_size` long |
| Ingest.ChunkOverlap | src/ingest.py:78-84 | chunk `k+1` begins with chunk `k` past its first `step` characters; when chunk `k` is full length, its last `overlap` characters are the first `overlap` of chunk `k+1` |
| Ingest.ChunkInPlace | src/ingest.py:80-83 | every chunk is the content at its start offset |
| Ingest.ChunksCover | src/ingest.py:80-84 | for `0 <= overlap`, every offset of the content lies inside some chunk |
| Ingest.LastChunkReachesEnd | src/ingest.py:80-84 | for `0 <= overlap` and non-empty content, the last chunk ends at `len(content)` |
| Ingest.ProcessDocuments | src/ingest.py:89-116 | the nested loops return `ProcessedRecords`: the records of each document in document order, one per chunk |
| Ingest.ProcessedSnoc | src/ingest.py:104-114 | processing one more document appends exactly its records |
| Ingest.RecordsCount | src/ingest.py:104-114 | there are as many records as chunks over all documents |
| Ingest.RecordPosition | src/ingest.py:104-114 | chunk `i` of document `j` is the record at offset `i` past the chunks of the documents before `j` |
| Ingest.RecordFields | src/ingest.py:107-113 | record `i` holds chunk `i`, keeps every other metadata entry of its document, and carries `chunk_index = i` and `total_chunks` = the document's chunk count |
| Ingest.LoopNeverExits | src/ingest.py:78-84 | on content longer than `chunk_size` with `overlap >= chunk_size`, after any number of passes `start` is still below `len(content)`, so the loop never exits |
| Ingest.ChunkDocumentChecked | src/ingest.py:44-86 | the checked chunker fails exactly when `overlap >= chunk_size` and otherwise returns the chunks of `chunk_document` |
| Embeddings.GenerateEmbeddings | src/embeddings.py:36-79 | empty input sends nothing and returns `[]`; otherwise the requests are the batches `texts[i:i+B]` for `i` in `range(0, len, B)` (none for a negative `B`), and the result is the service's answers concatenated in request order |
| Embeddings.EmbeddedSnoc | src/embeddings.py:75-77 | sending one more batch appends the service's answer to it |
| Embeddings.BatchesPartition | src/embeddings.py:73-74 | there are `ceil(len / B)` batches; batch `k` is `texts[k*B .. min(k*B + B, len)]`, non-empty, at most `B` long, exactly `B` long unless last; the batches concatenate to `texts` |
| Embeddings.BatchAt | src/embeddings.py:73-74 | batch `k` is the slice at offset `k*B`, non-empty, at most `B` long, and full unless last |
| Embeddings.EmbeddingsAligned | src/embeddings.py:73-79 | with one vector per input, there are `len(texts)` vectors, and the vector at the position of `texts[k*B + r]` is the one the service returned for that text |
| Embeddings.EmbeddingsPointwise | src/embeddings.py:73-79 | if the service embeds each text on its own, the result is exactly that embedding of each input in input order, whatever the batch size |
| Embeddings.ChunkDict.constructor | src/ingest.py:107-114 | a chunk dictionary starts with a record's content and metadata and no embedding |
| Embeddings.Texts | src/embeddings.py:92 | the texts are the chunks' contents, one per chunk, in order |
| Embeddings.LastIndex | src/embeddings.py:95-96 | the last position of a dictionary in the list (it holds the dictionary and no later position does), or -1 exactly when it is not listed |
| Embeddings.LastIndexStep | src/embeddings.py:95-96 | after one more pass of the zip loop, `chunks[i]` is its own last occurrence and every other dictionary keeps its last position |
| Embeddings.DistinctChunksOwnVector | src/embeddings.py:95-96 | when no dictionary is listed twice, chunk `k` receives vector `k` if the zip reaches it and keeps its old embedding otherwise |
| Embeddings.StoreVectors | src/embeddings.py:95-96 | the zip loop sets each listed dictionary's embedding to the vector of its last position among the first `min(len(chunks), len(vectors))`, leaves the others' embedding as it was, and changes no content or metadata |
| Embeddings.EmbedChunks | src/embeddings.py:82-98 | returns the same list; contents and metadata are unchanged; each chunk's embedding is the default-model, batch-100 vector at its position, where `zip` reaches |
| QaChain.Parts | src/qa_chain.py:33-37 | there is one part per search result |
| QaChain.PartAt | src/qa_chain.py:33-37 | part `k` is `[Source k+1: <source>]\n<content>\n`, the source defaulting to `Unknown` |
| QaChain.FitFrom | src/qa_chain.py:39-43 | the loop stops at a part index between where it is and the number of results |
| QaChain.BuildContext | src/qa_chain.py:19-45 | the loop returns `Context`: the newline join of the parts kept before the first one that overflows the budget, and `""` for no results |
| QaChain.FitFromOverflow | src/qa_chain.py:39-43 | from any point where every kept prefix fits, the loop keeps only prefixes that fit and stops just before the first one that does not |
| QaChain.FittingFirstOverflow | src/qa_chain.py:39-43 | the kept parts are a prefix of the parts: every kept prefix's total length is within the budget, and adding the first part left out exceeds it |
| QaChain.JoinLength | src/qa_chain.py:45 | `"\n".join` of no parts is `""`, and of `n > 0` parts is their total length plus `n - 1` |
| QaChain.JoinAt | src/qa_chain.py:45 | part `k` appears verbatim in the join at offset `Sum(parts[..k]) + k`, followed by a newline unless it is the last |
| QaChain.ContextLength | src/qa_chain.py:39-45 | with `n` parts kept, the context is `""` when `n = 0`; otherwise the parts' total is within the budget and the context is that total plus `n - 1` long, so at most `max + n - 1`; a first part that alone overflows gives `""` |
| QaChain.ContextHoldsPart | src/qa_chain.py:33-45 | the `k`-th kept part, `[Source k+1: <source>]\n<content>\n`, appears verbatim in the context at offset `Sum(parts[..k]) + k`, followed by a newline separator unless it is the last kept |
| QaChain.ContextExceedsBudget | src/qa_chain.py:39-45 | two hits with empty content and source `a` give a 31-character context for a budget of 30 |
| QaChain.FitJoinedFrom | src/qa_chain.py:39-45 | the corrected count stops at a part index between where it is and the number of results |
| QaChain.BuildContextWithinBudget | src/qa_chain.py:19-45 | the corrected loop charges each separator; it returns `ContextWithinBudget`, which never exceeds a non-negative budget, and `""` for no results |
| QaChain.FitJoinedFromOverflow | src/qa_chain.py:39-45 | the corrected loop keeps only prefixes whose join fits and stops before the first that does not |
| QaChain.FitJoinedFirstOverflow | src/qa_chain.py:39-45 | the corrected context keeps the longest run of parts from the front whose join fits the budget |
| QaChain.PromptLayout | src/qa_chain.py:107-115 | the prompt holds the instruction, the context and the question verbatim at fixed offsets, and ends with `\n\nAnswer:` |
| QaChain.PromptDetermines | src/qa_chain.py:107-115 | given the context's length, the prompt determines both the context and the question |
| QaChain.Distinct | src/qa_chain.py:131 | `list(set(xs))` holds exactly the values of `xs`, none twice |
| QaChain.SourcesMembers | src/qa_chain.py:127 | a value is among the hits' sources exactly when some hit carries it as `metadata.source`, or is a hit without one and the value is `Unknown` |
| QaChain.AnswerQuestion | src/qa_chain.py:48-133 | `context_used` is the context built over the hits with the default budget of 3000, separators charged, so it is at most 3000 characters long; the answer is the chat model's reply to a single user message holding the prompt; a value is a source iff some hit carries it; sources are distinct, and non-empty whenever the context is |

## Left out

- `load_documents` (src/ingest.py:17-41) reads files from a directory. `ProcessDocuments` takes the loaded documents as a sequence.
- `get_client` (src/embeddings.py:21-33) looks up an environment variable and caches a client; it is not modelled.
- The OpenAI embedding and chat calls are function parameters, so authentication and network errors, and the exceptions they raise, are not modelled.
- Vectors are sequences of `real`; floating-point arithmetic and vector dimensions are not modelled.
- `search_with_text` and the rest of src/retriever.py are not part of this model. The search is a function parameter that returns the hits, so scores, ranking and `top_k` limits are not modelled.
- A hit's `score` field is not modelled; only `content` and `metadata` are read.
- A hit without a `content` key, or with a `metadata` value that is not a dictionary, raises in the source; the model assumes well-formed hits.
- Metadata values are strings or integers. Other Python values, and how the f-string renders them, are not modelled.
- `interactive_qa` (src/qa_chain.py:136-170) is a console loop, and the `__main__` blocks are demo scripts; neither is modelled.
- run.py and src/web_ui.py are a progress-report script and a web interface; they are not part of this model.
- ChunkDocument: requires the inputs on which the loop exits (`ChunkingHalts`), because a method that never returns has no result to state. `LoopNeverExits` states the divergence on the other inputs.
- GenerateEmbeddings: requires `batch_size != 0`, because Python's `range` raises `ValueError` for a zero step; the exception is not modelled.
- AnswerQuestion: `list(set(sources))` has no specified order, so the contract states only membership and no repetition. `Distinct` keeps first occurrences.
- AnswerQuestion: builds its context with `BuildContextWithinBudget`, the corrected `build_context` (see Findings), so `context_used` can be shorter than the as-written context when the separators would overflow the budget.
- AnswerQuestion: `top_k` and `temperature` are passed through unchanged; their Python defaults (5 and 0.3) are not enforced.
- EmbedChunks: the `embedding` key is an `Option` field, with `None` for an absent key. Beyond the `ChunkDict` fields, a dictionary's other keys are not modelled.

## Findings

| source | as written | input that shows it | evidently intended | confidence | as-written member | corrected member |
|---|---|---|---|---|---|---|
| src/qa_chain.py:39-45 | the budget test adds only the parts' lengths, but `"\n".join` adds one separator between each two kept parts, so the context can exceed `max_context_length` by up to `n - 1` characters | two hits with empty content and source `a`, budget 30: each part is 15 characters, both are kept, and the context is 31 characters | the context never exceeds `max_context_length`, the bound the tests assert | not executed | QaChain.ContextExceedsBudget | QaChain.BuildContextWithinBudget |
| src/ingest.py:78-84 | nothing checks `overlap < chunk_size`; with `overlap >= chunk_size` the step is not positive and, on content longer than `chunk_size`, `start` never reaches `len(content)` | content `"abc"`, `chunk_size = 1`, `overlap = 1` | an overlap that is not below the chunk size is refused before any work | not executed | Ingest.LoopNeverExits | Ingest.ChunkDocumentChecked |
