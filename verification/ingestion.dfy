/**
 * The document processor's `lambda_handler`: given the extracted text of an
 * uploaded object, split it into chunks and, for each chunk in order, ask for
 * its embedding, store its full text under `processed/...` and write its
 * metadata record.
 *
 * The object store, the metadata table and the embedding model are not
 * called: every call the handler makes is returned, in order, as an `Effect`,
 * and the embedding model is the parameter `embed`: `embed(idx, chunk)` is
 * the reply to the call made for chunk `idx`, the length of the returned
 * vector or `None` when the call failed. It is indexed by the call's
 * position, so two chunks with the same text can get different replies.
 */
module Ingestion {
  import opened Wrappers
  import opened Text
  import opened Chunker

  /** The `max_length` the handler passes to `split_into_chunks`. */
  const MaxChunkLength := 8000
  /** How much of a chunk its metadata record previews. */
  const PreviewLength := 1000

  /** The uploaded object: bucket, key, and the document id derived from the key. */
  datatype Upload = Upload(bucket: string, key: string, documentId: string)

  /** The metadata item written for one chunk (timestamps not modelled). */
  datatype ChunkRecord = ChunkRecord(
    documentId: string,
    chunkId: string,
    documentName: string,
    s3Bucket: string,
    s3Key: string,
    chunkIndex: nat,
    totalChunks: nat,
    textContent: string,
    fullTextS3Key: string,
    embeddingDimension: nat,
    documentType: string)

  /** One call to a collaborator. */
  datatype Effect =
    | Embed(text: string)
    | PutObject(bucket: string, key: string, body: string)
    | PutItem(item: ChunkRecord)

  datatype IngestBody = NoTextContent | ProcessedChunks(count: nat, key: string)

  datatype IngestResponse = IngestResponse(statusCode: int, body: IngestBody)

  /** `f"{document_id}_chunk_{idx}"`. */
  function ChunkId(documentId: string, idx: nat): string {
    documentId + "_chunk_" + NatToString(idx)
  }

  /** `f"processed/{document_id}_chunk_{idx}.txt"`: the chunk id inside a fixed prefix and suffix. */
  function FullTextKey(documentId: string, idx: nat): (k: string)
    ensures k == "processed/" + ChunkId(documentId, idx) + ".txt"
  {
    "processed/" + documentId + "_chunk_" + NatToString(idx) + ".txt"
  }

  /** `key.split('/')[-1]`. */
  function DocumentName(key: string): string {
    LastSegment(key, '/')
  }

  /** `key.split('.')[-1].lower()`. */
  function FileExtension(key: string): string {
    LowerAscii(LastSegment(key, '.'))
  }

  /** `len(embedding) if embedding else 0`: a failed or empty embedding has dimension 0. */
  function EmbeddingDimension(embedding: Option<nat>): nat {
    embedding.GetOr(0)
  }

  /** The metadata record of chunk `idx` out of `chunks`. */
  function Record(u: Upload, chunks: seq<string>, idx: nat, embedding: Option<nat>): ChunkRecord
    requires idx < |chunks|
  {
    ChunkRecord(
      documentId := u.documentId,
      chunkId := ChunkId(u.documentId, idx),
      documentName := DocumentName(u.key),
      s3Bucket := u.bucket,
      s3Key := u.key,
      chunkIndex := idx,
      totalChunks := |chunks|,
      textContent := Prefix(chunks[idx], PreviewLength),
      fullTextS3Key := FullTextKey(u.documentId, idx),
      embeddingDimension := EmbeddingDimension(embedding),
      documentType := FileExtension(u.key))
  }

  /** The three calls made for chunk `idx`: embed it, store its text, write its record. */
  function ChunkEffects(u: Upload, chunks: seq<string>, idx: nat, embed: (nat, string) -> Option<nat>): seq<Effect>
    requires idx < |chunks|
  {
    [ Embed(chunks[idx]),
      PutObject(u.bucket, FullTextKey(u.documentId, idx), chunks[idx]),
      PutItem(Record(u, chunks, idx, embed(idx, chunks[idx]))) ]
  }

  /** The calls made for the first `n` chunks, in order. */
  function Effects(u: Upload, chunks: seq<string>, n: nat, embed: (nat, string) -> Option<nat>): seq<Effect>
    requires n <= |chunks|
  {
    if n == 0 then [] else Effects(u, chunks, n - 1, embed) + ChunkEffects(u, chunks, n - 1, embed)
  }

  /**
   * The handler, from the extracted text on. Empty text is answered with
   * status 200 and "No text content", and nothing is written; otherwise every
   * chunk gets its three calls, in chunk order, and text of whitespace alone
   * is reported as zero chunks processed.
   */
  method LambdaHandler(u: Upload, text: string, embed: (nat, string) -> Option<nat>)
    returns (response: IngestResponse, effects: seq<Effect>)
    ensures text == "" ==> response == IngestResponse(200, NoTextContent) && effects == []
    ensures text != "" && AllSpace(text) ==> response == IngestResponse(200, ProcessedChunks(0, u.key)) && effects == []
    ensures text != "" ==>
      var chunks := Chunks(text, MaxChunkLength);
      response == IngestResponse(200, ProcessedChunks(|chunks|, u.key))
      && effects == Effects(u, chunks, |chunks|, embed)
  {
    if text == "" {
      return IngestResponse(200, NoTextContent), [];
    }
    var chunks := SplitIntoChunks(text, MaxChunkLength);
    ChunksEmptyIff(text, MaxChunkLength);
    effects := ProcessChunks(u, chunks, embed);
    response := IngestResponse(200, ProcessedChunks(|chunks|, u.key));
  }

  /** The loop over the chunks: embed each one, store its text, then write its record. */
  method ProcessChunks(u: Upload, chunks: seq<string>, embed: (nat, string) -> Option<nat>)
    returns (effects: seq<Effect>)
    ensures effects == Effects(u, chunks, |chunks|, embed)
  {
    effects := [];
    for idx := 0 to |chunks|
      invariant effects == Effects(u, chunks, idx, embed)
    {
      var chunk := chunks[idx];
      var embedding := embed(idx, chunk);
      var metadata := Record(u, chunks, idx, embedding);
      effects := effects + [Embed(chunk)];
      effects := effects + [PutObject(u.bucket, metadata.fullTextS3Key, chunk)];
      effects := effects + [PutItem(metadata)];
    }
  }

  /**
   * The calls for chunk `idx` sit at positions `3 * idx` to `3 * idx + 2`:
   * its embedding, then its text under its own key, then its record, which
   * carries the embedding's dimension.
   */
  lemma {:induction false} EffectsAt(u: Upload, chunks: seq<string>, n: nat, embed: (nat, string) -> Option<nat>, idx: nat)
    requires n <= |chunks| && idx < n
    ensures var es := Effects(u, chunks, n, embed);
      |es| == 3 * n
      && es[3 * idx] == Embed(chunks[idx])
      && es[3 * idx + 1] == PutObject(u.bucket, FullTextKey(u.documentId, idx), chunks[idx])
      && es[3 * idx + 2] == PutItem(Record(u, chunks, idx, embed(idx, chunks[idx])))
    decreases n
  {
    EffectsLength(u, chunks, n - 1, embed);
    if idx < n - 1 {
      EffectsAt(u, chunks, n - 1, embed, idx);
    }
  }

  lemma {:induction false} EffectsLength(u: Upload, chunks: seq<string>, n: nat, embed: (nat, string) -> Option<nat>)
    requires n <= |chunks|
    ensures |Effects(u, chunks, n, embed)| == 3 * n
    decreases n
  {
    if n > 0 { EffectsLength(u, chunks, n - 1, embed); }
  }

  /**
   * Every record of one document carries its own position as `chunk_index`,
   * the document's chunk count as `total_chunks`, its own chunk id and
   * full-text key, the document's name and extension, the first
   * `min(1000, len(chunk))` characters of its chunk, and an embedding
   * dimension that is 0 exactly when the embedding failed or was empty.
   */
  lemma RecordFields(u: Upload, chunks: seq<string>, idx: nat, embedding: Option<nat>)
    requires idx < |chunks|
    ensures var r := Record(u, chunks, idx, embedding);
      r.chunkIndex == idx && r.totalChunks == |chunks|
      && r.documentId == u.documentId && r.s3Key == u.key && r.s3Bucket == u.bucket
      && r.chunkId == ChunkId(u.documentId, idx) && r.fullTextS3Key == FullTextKey(u.documentId, idx)
      && r.documentName == DocumentName(u.key) && r.documentType == FileExtension(u.key)
      && r.textContent <= chunks[idx]
      && |r.textContent| == (if |chunks[idx]| < PreviewLength then |chunks[idx]| else PreviewLength)
      && (r.embeddingDimension == 0 <==> embedding == None || embedding == Some(0))
      && (embedding.Some? ==> r.embeddingDimension == embedding.value)
  {
  }

  /** Two different chunks of one document never share a chunk id or a full-text key. */
  lemma KeysDistinct(documentId: string, i: nat, j: nat)
    requires i != j
    ensures ChunkId(documentId, i) != ChunkId(documentId, j)
    ensures FullTextKey(documentId, i) != FullTextKey(documentId, j)
  {
    NatToStringInjective(i, j);
    var p := documentId + "_chunk_";
    var ci, cj := ChunkId(documentId, i), ChunkId(documentId, j);
    assert ci[|p|..] == NatToString(i) && cj[|p|..] == NatToString(j);
    var ki, kj := FullTextKey(documentId, i), FullTextKey(documentId, j);
    assert ki[10..|ki| - 4] == ci && kj[10..|kj| - 4] == cj;
  }

  /** Two records of one document, for different chunks, differ in chunk id and full-text key. */
  lemma RecordsDistinct(u: Upload, chunks: seq<string>, i: nat, j: nat, ei: Option<nat>, ej: Option<nat>)
    requires i < |chunks| && j < |chunks| && i != j
    ensures Record(u, chunks, i, ei).chunkId != Record(u, chunks, j, ej).chunkId
    ensures Record(u, chunks, i, ei).fullTextS3Key != Record(u, chunks, j, ej).fullTextS3Key
  {
    KeysDistinct(u.documentId, i, j);
  }
}
