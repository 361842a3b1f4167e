# RAG knowledge-base pipeline in Dafny

A model of the two AWS Lambda handlers of the RAG knowledge-base proof of
concept, with proofs about them:

- **Document ingestion** (`document_processor.py`). The extracted text of an
  uploaded object is split into word chunks of bounded length by
  `split_into_chunks`. Then, chunk by chunk and in order, the handler:
  - asks the embedding model for the chunk's vector;
  - stores the chunk's full text under `processed/{document_id}_chunk_{idx}.txt`;
  - writes the chunk's metadata record.
- **Query answering** (`rag_query_processor.py`). The handler validates the
  query and asks the knowledge base for passages. It numbers the passages
  `Document 1:` … into a context and builds the fixed prompt around the
  context and the query. It asks the language model for an answer. It
  returns the answer with one citation per passage: the location, the
  score, and a 200-character excerpt.

Modules:

- `Wrappers` — `Option` (a missing key, read with a default by `GetOr`) and
  `Outcome` (a collaborator call that returned or raised).
- `Text` — the Python string built-ins the handlers use, on `string`:
  - `str.split()`, with the full `str.isspace` set of separators;
  - `sep.join`;
  - `str(n)`;
  - `s.split(c)[-1]`;
  - `s.lower()`;
  - `s[:n]`.
- `Chunker` — `split_into_chunks`:
  - `Chunks` is a recursive reference definition of the greedy policy.
  - `SplitIntoChunks` is the loop, proved equal to `Chunks`. Its state after
    each word is the predicate `Scanned`.
  - Lemmas state what the chunks are.
- `Ingestion` — the ingestion handler from the extracted text on.
  - The object store, the metadata table and the embedding model are not
    called. Every call the handler makes is returned, in order, as an
    `Effect`.
  - The embedding model is the parameter `embed`. `embed(idx, chunk)` is the
    reply to the call for chunk `idx`: the length of the returned vector, or
    `None` when the call failed.
- `QueryProcessor` — the query handler.
  - The knowledge base and the model are the parameters `retrieve` and
    `generate`.
  - Each call made to them is returned, in order, as a `Call`.

The chunking policy, modelled as written:

- A word costs its length plus one.
- A chunk is closed when the next word would push its running cost past
  `max_length`. That word then opens the next chunk, whatever its length.
- Only the first chunk starts from an empty accumulator. When the very first
  word alone overflows, the code therefore emits the empty string `''` as the
  first chunk, and then the word on its own. `Chunker.EmptyChunks` and
  `Chunker.LongFirstWord` state this.
- Whitespace-only text is not empty, so the ingestion handler goes on to
  report zero chunks processed.

Behaviour of the code that the model keeps as written:

- When the first word alone is longer than `max_length - 1`, the chunks start
  with the empty string `''`, then that word on its own (above).
- The metadata record holds only the embedding's dimension
  (`embedding_dimension`); the embedding vector is not written anywhere.
- The ingestion handler's error response carries the exception's text
  (left out below).

## Model

| member | source | states |
|---|---|---|
| Text.Words | rag-system-implementation/rag-knowledge-base-poc/lambda_functions/document_processor.py:106 | every element of `text.split()` is a non-empty run of non-whitespace characters |
| Text.WordsEmptyIff | rag-system-implementation/rag-knowledge-base-poc/lambda_functions/document_processor.py:106 | `text.split()` is empty exactly when the text is empty or all whitespace |
| Text.WordsOfJoin | rag-system-implementation/rag-knowledge-base-poc/lambda_functions/document_processor.py:113 | splitting `' '.join(words)` again gives back exactly those words |
| Text.JoinSnoc | rag-system-implementation/rag-knowledge-base-poc/lambda_functions/rag_query_processor.py:86 | appending one part to a join appends one separator and that part |
| Text.NatToString | rag-system-implementation/rag-knowledge-base-poc/lambda_functions/document_processor.py:37 | `str(idx)` is a non-empty string of decimal digits with no leading zero (except `"0"` itself) |
| Text.DecimalRoundTrip | rag-system-implementation/rag-knowledge-base-poc/lambda_functions/document_processor.py:37 | reading the numeral `str(idx)` back gives `idx` |
| Text.NatToStringInjective | rag-system-implementation/rag-knowledge-base-poc/lambda_functions/document_processor.py:37 | different indices have different numerals |
| Text.LastSegmentIsLastPart | rag-system-implementation/rag-knowledge-base-poc/lambda_functions/document_processor.py:42 | `key.split(sep)[-1]` is a suffix of the key that holds no separator and is either the whole key or preceded by a separator |
| Text.LowerAscii | rag-system-implementation/rag-knowledge-base-poc/lambda_functions/document_processor.py:24 | lower-casing keeps the length, leaves no capital letter, turns each capital into its small letter and keeps every other character |
| Text.LowerAsciiIdempotent | rag-system-implementation/rag-knowledge-base-poc/lambda_functions/document_processor.py:24 | lower-casing twice is lower-casing once |
| Text.Prefix | rag-system-implementation/rag-knowledge-base-poc/lambda_functions/document_processor.py:47 | `s[:n]` is a prefix of `s` of length `min(n, len(s))` |
| Chunker.Fill | rag-system-implementation/rag-knowledge-base-poc/lambda_functions/document_processor.py:110-118 | a group extended greedily still fits, unless it is a forced single word, and stops at the first word that would overflow it |
| Chunker.SplitIntoChunks | rag-system-implementation/rag-knowledge-base-poc/lambda_functions/document_processor.py:104-123 | the loop returns exactly the greedy chunking `Chunks(text, maxLength)` |
| Chunker.ScanClose | rag-system-implementation/rag-knowledge-base-poc/lambda_functions/document_processor.py:112-115 | an overflowing word emits the open chunk joined with spaces, and opens a new chunk holding only that word, with its cost |
| Chunker.ScanExtend | rag-system-implementation/rag-knowledge-base-poc/lambda_functions/document_processor.py:116-118 | a word that fits is appended to the open chunk, and its cost added |
| Chunker.ScanFinish | rag-system-implementation/rag-knowledge-base-poc/lambda_functions/document_processor.py:120-123 | after the last word, emitting the open chunk when it holds a word completes the chunking |
| Chunker.ChunkGroupsFlatten | rag-system-implementation/rag-knowledge-base-poc/lambda_functions/document_processor.py:110-121 | the word groups hold all the words in order, there are none exactly when there are no words, and there is at most one more group than there are words |
| Chunker.ChunkGroupsAt | rag-system-implementation/rag-knowledge-base-poc/lambda_functions/document_processor.py:110-121 | only the first group can be empty, exactly when the first word alone overflows; groups of two or more words fit; each group is closed only because the next one's first word overflowed it |
| Chunker.GroupsFromAt | rag-system-implementation/rag-knowledge-base-poc/lambda_functions/document_processor.py:110-118 | every group after the first is non-empty, fits unless a single word, and was closed by an overflow |
| Chunker.JoinCost | rag-system-implementation/rag-knowledge-base-poc/lambda_functions/document_processor.py:111-113 | a group joined with single spaces is one character shorter than its running cost |
| Chunker.ChunkWordsAre | rag-system-implementation/rag-knowledge-base-poc/lambda_functions/document_processor.py:113-121 | splitting each chunk again gives back the word group it was built from |
| Chunker.ChunksPreserveWords | rag-system-implementation/rag-knowledge-base-poc/lambda_functions/document_processor.py:106-121 | the words of the chunks, in chunk order, are exactly `text.split()`: none lost, duplicated, reordered or split |
| Chunker.ChunksEmptyIff | rag-system-implementation/rag-knowledge-base-poc/lambda_functions/document_processor.py:106-121 | there are no chunks exactly when the text is empty or all whitespace |
| Chunker.ChunkLengthBound | rag-system-implementation/rag-knowledge-base-poc/lambda_functions/document_processor.py:111-118 | a chunk of two or more words is at most `max_length - 1` characters long |
| Chunker.EmptyChunks | rag-system-implementation/rag-knowledge-base-poc/lambda_functions/document_processor.py:112-115 | at most one chunk more than words; a chunk is `''` exactly when it is the first one and the first word alone overflows |
| Chunker.GreedyClosure | rag-system-implementation/rag-knowledge-base-poc/lambda_functions/document_processor.py:112-115 | a chunk is followed by another only when that one's first word would have overflowed it |
| Chunker.LongFirstWord | rag-system-implementation/rag-knowledge-base-poc/lambda_functions/document_processor.py:112-121 | `split_into_chunks("abc", 3)` is `["", "abc"]` |
| Chunker.FiveWords | rag-system-implementation/rag-knowledge-base-poc/lambda_functions/document_processor.py:104-123 | `split_into_chunks("a b c d e", 4)` is `["a b", "c d", "e"]` |
| Ingestion.FullTextKey | rag-system-implementation/rag-knowledge-base-poc/lambda_functions/document_processor.py:48 | the full-text key is the chunk id between `processed/` and `.txt` |
| Ingestion.LambdaHandler | rag-system-implementation/rag-knowledge-base-poc/lambda_functions/document_processor.py:27-66 | empty text gives 200 "No text content" and no writes; whitespace-only text gives 200 with zero chunks and no writes; otherwise 200 with the chunk count and key, after exactly the calls of `Effects` for every chunk of `split_into_chunks(text, 8000)` |
| Ingestion.ProcessChunks | rag-system-implementation/rag-knowledge-base-poc/lambda_functions/document_processor.py:35-62 | the loop makes the three calls of every chunk, in chunk order |
| Ingestion.EffectsAt | rag-system-implementation/rag-knowledge-base-poc/lambda_functions/document_processor.py:35-61 | chunk `idx` owns calls `3idx` to `3idx+2`: embed the chunk, store its text under its key, write its record carrying the embedding result |
| Ingestion.EffectsLength | rag-system-implementation/rag-knowledge-base-poc/lambda_functions/document_processor.py:35-61 | there are exactly three calls per chunk |
| Ingestion.RecordFields | rag-system-implementation/rag-knowledge-base-poc/lambda_functions/document_processor.py:37-53 | a record carries its own index, the document's chunk count, its own chunk id and full-text key, the document's id, key, bucket, name and extension, the first `min(1000, len)` characters of its chunk, and embedding dimension 0 exactly when the embedding failed or was empty |
| Ingestion.KeysDistinct | rag-system-implementation/rag-knowledge-base-poc/lambda_functions/document_processor.py:37-48 | two chunks of one document never share a chunk id or a full-text key |
| Ingestion.RecordsDistinct | rag-system-implementation/rag-knowledge-base-poc/lambda_functions/document_processor.py:37-50 | two records of one document for different chunks differ in `chunk_id` and in `full_text_s3_key` |
| QueryProcessor.LambdaHandler | rag-system-implementation/rag-knowledge-base-poc/lambda_functions/rag_query_processor.py:14-137 | the outcome for each case. Status is 200, 400 or 500, and every response carries the JSON and cross-origin headers. An unreadable body gives 500 with no calls. A missing or empty query, and only that, gives 400 "Query is required" with no calls. Otherwise there is one retrieval of 5 results for the query. A failed retrieval gives 500. No passages gives the canned answer, no sources and no generation. Otherwise there is one generation with the prompt over the numbered context and 1000 max tokens. A failed generation gives 500. A successful one gives 200 with the model's text verbatim and one source per passage in retrieval order. Every 500 carries only "Internal server error" |
| QueryProcessor.AssembleContext | rag-system-implementation/rag-knowledge-base-poc/lambda_functions/rag_query_processor.py:70-86 | the loop yields one source per passage, in order, and the context is the numbered parts joined with "" |
| QueryProcessor.ExcerptRule | rag-system-implementation/rag-knowledge-base-poc/lambda_functions/rag_query_processor.py:83 | a passage over 200 characters gives its first 200 plus "..." (203 in all); a shorter one is kept whole; either way the excerpt starts with the passage's first `min(200, len)` characters |
| QueryProcessor.SourceDefaults | rag-system-implementation/rag-knowledge-base-poc/lambda_functions/rag_query_processor.py:74-82 | missing content reads as "", a missing location as document "Unknown", a missing score as 0; a present score is cited unchanged |
| QueryProcessor.ContextSnoc | rag-system-implementation/rag-knowledge-base-poc/lambda_functions/rag_query_processor.py:73-86 | one more passage appends "Document {n+1}:" and its text at the end of the context |
| QueryProcessor.ContextInOrder | rag-system-implementation/rag-knowledge-base-poc/lambda_functions/rag_query_processor.py:73-86 | passage `i` appears in the context numbered `i+1`, right after the parts of the passages before it |
| QueryProcessor.PromptLayout | rag-system-implementation/rag-knowledge-base-poc/lambda_functions/rag_query_processor.py:89-98 | the prompt is the fixed instruction, the context, "Question: " and the query verbatim, then the fixed closing instruction, in that order |
| Text.Join | rag-system-implementation/rag-knowledge-base-poc/lambda_functions/document_processor.py:113 | `sep.join(parts)`; its contract is stated by `Text.JoinSnoc` and `Text.WordsOfJoin` |
| Text.LastSegment | rag-system-implementation/rag-knowledge-base-poc/lambda_functions/document_processor.py:42 | `s.split(sep)[-1]`; its contract is stated by `Text.LastSegmentIsLastPart` |
| Chunker.ChunkGroups | rag-system-implementation/rag-knowledge-base-poc/lambda_functions/document_processor.py:104-123 | the word groups of the greedy policy; contract stated by `Chunker.ChunkGroupsFlatten` and `Chunker.ChunkGroupsAt` |
| Chunker.Chunks | rag-system-implementation/rag-knowledge-base-poc/lambda_functions/document_processor.py:104-123 | `split_into_chunks(text, max_length)`; contract stated by `Chunker.ChunksPreserveWords`, `Chunker.ChunksEmptyIff`, `Chunker.ChunkLengthBound`, `Chunker.EmptyChunks` and `Chunker.GreedyClosure` |
| Ingestion.ChunkId | rag-system-implementation/rag-knowledge-base-poc/lambda_functions/document_processor.py:37 | `f"{document_id}_chunk_{idx}"`; distinct per index by `Ingestion.KeysDistinct` |
| Ingestion.DocumentName | rag-system-implementation/rag-knowledge-base-poc/lambda_functions/document_processor.py:42 | `key.split('/')[-1]`: the text after the last `/`, by `Text.LastSegmentIsLastPart` |
| Ingestion.FileExtension | rag-system-implementation/rag-knowledge-base-poc/lambda_functions/document_processor.py:24 | `key.split('.')[-1].lower()`: the text after the last `.`, lower-cased, by `Text.LastSegmentIsLastPart` and `Text.LowerAscii` |
| Ingestion.EmbeddingDimension | rag-system-implementation/rag-knowledge-base-poc/lambda_functions/document_processor.py:49 | `len(embedding) if embedding else 0`; stated by `Ingestion.RecordFields` |
| Ingestion.Record | rag-system-implementation/rag-knowledge-base-poc/lambda_functions/document_processor.py:39-53 | the metadata item of one chunk; every field is stated by `Ingestion.RecordFields`, and records of different chunks are told apart by `Ingestion.RecordsDistinct` |
| Ingestion.ChunkEffects | rag-system-implementation/rag-knowledge-base-poc/lambda_functions/document_processor.py:36-61 | the embed, put_object and put_item calls of one chunk; stated by `Ingestion.EffectsAt` |
| Ingestion.Effects | rag-system-implementation/rag-knowledge-base-poc/lambda_functions/document_processor.py:35-61 | the calls for the first `n` chunks in order; stated by `Ingestion.EffectsAt` and `Ingestion.EffectsLength` |
| QueryProcessor.DocText | rag-system-implementation/rag-knowledge-base-poc/lambda_functions/rag_query_processor.py:74 | `doc.get('content', {}).get('text', '')`; defaults stated by `QueryProcessor.SourceDefaults` |
| QueryProcessor.DocUri | rag-system-implementation/rag-knowledge-base-poc/lambda_functions/rag_query_processor.py:75-81 | the nested `uri` lookup with default "Unknown"; stated by `QueryProcessor.SourceDefaults` |
| QueryProcessor.DocScore | rag-system-implementation/rag-knowledge-base-poc/lambda_functions/rag_query_processor.py:82 | `doc.get('score', 0)`; stated by `QueryProcessor.SourceDefaults` |
| QueryProcessor.Excerpt | rag-system-implementation/rag-knowledge-base-poc/lambda_functions/rag_query_processor.py:83 | the 200-character excerpt; stated by `QueryProcessor.ExcerptRule` |
| QueryProcessor.SourceOf | rag-system-implementation/rag-knowledge-base-poc/lambda_functions/rag_query_processor.py:80-84 | the citation of one passage; stated by `QueryProcessor.SourceDefaults` and `QueryProcessor.ExcerptRule` |
| QueryProcessor.ContextPart | rag-system-implementation/rag-knowledge-base-poc/lambda_functions/rag_query_processor.py:78 | `f"Document {idx + 1}:{doc_content}"`; stated by `QueryProcessor.ContextSnoc` and `QueryProcessor.ContextInOrder` |
| QueryProcessor.Context | rag-system-implementation/rag-knowledge-base-poc/lambda_functions/rag_query_processor.py:86 | `"".join(context_parts)`; stated by `QueryProcessor.ContextSnoc` and `QueryProcessor.ContextInOrder` |
| QueryProcessor.Prompt | rag-system-implementation/rag-knowledge-base-poc/lambda_functions/rag_query_processor.py:89-98 | the prompt template; stated by `QueryProcessor.PromptLayout` |
| Text.IsSpace | rag-system-implementation/rag-knowledge-base-poc/lambda_functions/document_processor.py:106 | the separators of `text.split()`, the characters for which `str.isspace` holds; used by `Text.Words`, whose contract and `Text.WordsEmptyIff` state the split |
| Text.LowerChar | rag-system-implementation/rag-knowledge-base-poc/lambda_functions/document_processor.py:24 | `.lower()` of one character, ASCII capitals only; stated through `Text.LowerAscii`'s contract |
| Chunker.WordCost | rag-system-implementation/rag-knowledge-base-poc/lambda_functions/document_processor.py:111 | `word_length = len(word) + 1`; used by `Chunker.CostSnoc` and `Chunker.GreedyClosure` |
| Chunker.Cost | rag-system-implementation/rag-knowledge-base-poc/lambda_functions/document_processor.py:108-118 | `current_length` of an accumulator; `Chunker.CostSnoc` states how it grows by one word and `Chunker.JoinCost` that it is the joined chunk's length plus one |
| Chunker.JoinEach | rag-system-implementation/rag-knowledge-base-poc/lambda_functions/document_processor.py:113-121 | `' '.join(current_chunk)` for each group; stated by `Chunker.JoinEachAt` |
| QueryProcessor.ContextParts | rag-system-implementation/rag-knowledge-base-poc/lambda_functions/rag_query_processor.py:70-78 | `context_parts`, one numbered part per passage in retrieval order; stated by `QueryProcessor.ContextInOrder` and `QueryProcessor.AssembleContext` |
| QueryProcessor.Sources | rag-system-implementation/rag-knowledge-base-poc/lambda_functions/rag_query_processor.py:71-84 | the `sources` list of the 200 body: one citation per passage, in retrieval order; its length by its own ensures, its elements by `QueryProcessor.AssembleContext` and `QueryProcessor.LambdaHandler` |

## Left out

- Reading the S3 event and downloading the object (`document_processor.py` lines 16-22): the handler model starts from the bucket, the key and the extracted text.
- `extract_text` (lines 76-102): PDF and DOCX parsing goes through third-party libraries, and `extract_text` is not part of this model. Its result is the `text` parameter.
- The document id, an MD5 hex digest of the key (line 32), is a field of `Upload`, not computed.
- `generate_embedding` (lines 125-140) is the `embed` parameter, indexed by the chunk's position so that each call has its own reply. It gives the vector's length, `None` when the call failed, or `Some(0)` for an empty vector. The vector's values are not modelled.
- The `created_date` and `last_updated` timestamps (lines 51-52) come from the clock and are not modelled.
- All `print` logging is left out.
- The ingestion handler's 500 path (lines 69-74) is left out: an exception from S3, DynamoDB or event parsing, with the exception text in the body. So are the writes already done before such a failure.
- Ingestion.LambdaHandler: `ProcessedChunks(count, key)` stands for the message `Successfully processed {count} chunks from {key}`; its exact wording and JSON encoding are not modelled.
- Text.LowerAscii: `.lower()` is modelled for ASCII letters only, so `Ingestion.FileExtension` does not lower-case non-ASCII letters. Python's full Unicode case mapping is not modelled.
- Chunk bodies are stored UTF-8 encoded (line 58); the model keeps them as strings.
- The table name, the embedding and generation model ids, the knowledge base id and the region are environment constants and are not modelled.
- QueryProcessor.LambdaHandler: the model does not parse JSON. A body that is not valid JSON, or not an object, is `Malformed` and gives 500, as the exception handler would.
- QueryProcessor.LambdaHandler: a `query` that is present but not a string is not modelled.
- QueryProcessor.LambdaHandler: the response body is a structured value, not its `json.dumps` text.
- QueryProcessor.LambdaHandler: `Generate` records the prompt and `max_tokens` only. The `anthropic_version` and the message envelope are not modelled.
- QueryProcessor.LambdaHandler: `generate` gives the text of the first content block, or `Failed` when the call, the parsing or the indexing raises (lines 101-114).
- QueryProcessor.SourceOf: `None` in a retrieval result stands for an absent key. A key present with an explicit JSON `null` is not modelled: Python's `.get` would return `None` or raise on it.
- QueryProcessor.DocScore: scores are `real`; the integer default `0` is the real `0.0`.
