/** Embedding generation: `generate_embeddings` cuts its input into batches,
    sends each batch to the embedding service and concatenates the answers;
    `embed_chunks` writes the vectors into the chunk dictionaries in place.
    The embedding service is a function parameter. */
module Embeddings {
  import opened Values
  import opened Slicing
  import Ingest

  /** An embedding vector (floating-point numbers, here reals). */
  type Vector = seq<real>

  /** The embedding service: the vectors it returns for a batch of texts and
      a model name. */
  type EmbeddingService = (seq<string>, string) -> seq<Vector>

  const DefaultModel: string := "text-embedding-3-small"
  const DefaultBatchSize: int := 100

  /** The batches `texts[i:i+batch_size]` for `i` in
      `range(0, len(texts), batch_size)`. */
  function Batches(texts: seq<string>, batchSize: int): seq<seq<string>>
    requires batchSize > 0
  {
    Windows(texts, 0, batchSize, batchSize)
  }

  /** The service's answer to each batch, in order. */
  function Responses(service: EmbeddingService, model: string, batches: seq<seq<string>>): (rs: seq<seq<Vector>>)
    ensures |rs| == |batches|
  {
    seq(|batches|, k requires 0 <= k < |batches| => service(batches[k], model))
  }

  /** What `generate_embeddings` returns when it sends `batches`. */
  function Embedded(service: EmbeddingService, model: string, batches: seq<seq<string>>): seq<Vector>
  {
    Flatten(Responses(service, model, batches))
  }

  /** `generate_embeddings`.  Besides the vectors it returns the requests it
      sends to the service, in order: none for empty input, otherwise one
      per batch.  A batch size of 0 makes `range` raise; a negative one
      makes it empty, so nothing is sent. */
  method GenerateEmbeddings(texts: seq<string>, model: string, batchSize: int, service: EmbeddingService)
    returns (embeddings: seq<Vector>, requests: seq<seq<string>>)
    requires batchSize != 0
    ensures batchSize > 0 ==> requests == Batches(texts, batchSize)
    ensures batchSize < 0 ==> requests == []
    ensures embeddings == Embedded(service, model, requests)
    ensures texts == [] ==> requests == [] && embeddings == []
  {
    if |texts| == 0 {
      return [], [];
    }
    embeddings, requests := [], [];
    if batchSize < 0 {
      return;
    }
    var i := 0;
    while i < |texts|
      invariant requests + Windows(texts, i, batchSize, batchSize) == Batches(texts, batchSize)
      invariant embeddings == Embedded(service, model, requests)
      decreases |texts| - i
    {
      var batch := PySlice(texts, i, i + batchSize);
      var response := service(batch, model);
      WindowsStep(requests, Batches(texts, batchSize), texts, i, batchSize, batchSize);
      EmbeddedSnoc(service, model, requests, batch);
      requests := requests + [batch];
      embeddings := embeddings + response;
      i := i + batchSize;
    }
  }

  /** Sending one more batch appends the service's answer to it. */
  lemma EmbeddedSnoc(service: EmbeddingService, model: string, requests: seq<seq<string>>, batch: seq<string>)
    ensures Embedded(service, model, requests + [batch]) == Embedded(service, model, requests) + service(batch, model)
  {
    var rs := Responses(service, model, requests + [batch]);
    assert rs == Responses(service, model, requests) + [service(batch, model)];
    assert rs[..|requests|] == Responses(service, model, requests);
  }

  /** The batches partition the input: each is the slice
      `texts[k*B .. min(k*B + B, len)]`, non-empty and at most `B` long, all
      but the last exactly `B` long; there are `ceil(len / B)` of them and
      together, in order, they are the input. */
  lemma BatchesPartition(texts: seq<string>, batchSize: int)
    requires batchSize > 0
    ensures |Batches(texts, batchSize)| == CeilDiv(|texts|, batchSize)
    ensures Flatten(Batches(texts, batchSize)) == texts
    ensures forall k :: 0 <= k < |Batches(texts, batchSize)| ==>
              var at := Offset(k, batchSize);
              && 0 <= at < |texts|
              && Batches(texts, batchSize)[k] == texts[at..Min(at + batchSize, |texts|)]
              && 0 < |Batches(texts, batchSize)[k]| <= batchSize
              && (k + 1 < |Batches(texts, batchSize)| ==> |Batches(texts, batchSize)[k]| == batchSize)
  {
    WindowsCount(texts, batchSize, batchSize);
    WindowsTile(texts, 0, batchSize);
    forall k | 0 <= k < |Batches(texts, batchSize)|
      ensures var at := Offset(k, batchSize);
              && 0 <= at < |texts|
              && Batches(texts, batchSize)[k] == texts[at..Min(at + batchSize, |texts|)]
              && 0 < |Batches(texts, batchSize)[k]| <= batchSize
              && (k + 1 < |Batches(texts, batchSize)| ==> |Batches(texts, batchSize)[k]| == batchSize)
    {
      BatchAt(texts, batchSize, k);
    }
  }

  lemma BatchAt(texts: seq<string>, batchSize: int, k: nat)
    requires batchSize > 0 && k < |Batches(texts, batchSize)|
    ensures var at := Offset(k, batchSize);
            && 0 <= at < |texts|
            && Batches(texts, batchSize)[k] == texts[at..Min(at + batchSize, |texts|)]
            && 0 < |Batches(texts, batchSize)[k]| <= batchSize
            && (k + 1 < |Batches(texts, batchSize)| ==> |Batches(texts, batchSize)[k]| == batchSize)
  {
    var at := Offset(k, batchSize);
    WindowsAt(texts, 0, batchSize, batchSize, k);
    WindowsAt(texts, 0, batchSize, batchSize, k + 1);
    OffsetNonNegative(k, batchSize);
    WindowAt(texts, 0, batchSize, batchSize, k);
    WindowShape(texts, at, batchSize);
  }

  /** In a sequence of pieces, element `r` of piece `k` sits at position
      `Offset(k, B) + r` of the concatenation when every piece before it is
      `B` long. */
  lemma {:induction false} FlattenAt<T>(ss: seq<seq<T>>, size: int, k: nat, r: nat)
    requires size > 0 && k < |ss| && r < |ss[k]|
    requires forall m :: 0 <= m < k ==> |ss[m]| == size
    ensures 0 <= Offset(k, size) && Offset(k, size) + r < |Flatten(ss)|
    ensures Flatten(ss)[Offset(k, size) + r] == ss[k][r]
    decreases |ss|
  {
    OffsetNonNegative(k, size);
    var last := |ss| - 1;
    var init := ss[..last];
    assert Flatten(ss) == Flatten(init) + ss[last];
    if k == last {
      PrefixLength(init, size, k);
    } else {
      FlattenAt(init, size, k, r);
    }
  }

  lemma {:induction false} PrefixLength<T>(ss: seq<seq<T>>, size: int, n: nat)
    requires n == |ss| && forall m :: 0 <= m < n ==> |ss[m]| == size
    ensures |Flatten(ss)| == Offset(n, size)
    decreases n
  {
    if n > 0 {
      PrefixLength(ss[..n - 1], size, n - 1);
    }
  }

  lemma {:induction false} FlattenLength<T, U>(ss: seq<seq<T>>, us: seq<seq<U>>)
    requires |ss| == |us| && forall m :: 0 <= m < |ss| ==> |ss[m]| == |us[m]|
    ensures |Flatten(ss)| == |Flatten(us)|
    decreases |ss|
  {
    if ss != [] {
      FlattenLength(ss[..|ss| - 1], us[..|us| - 1]);
    }
  }

  /** Order is preserved: if the service returns one vector per input, there
      are `len(texts)` vectors, and the vector at the position of
      `texts[j]` (element `r` of batch `k`) is the one the service returned
      for that text, element `r` of its answer to batch `k`. */
  lemma EmbeddingsAligned(texts: seq<string>, model: string, batchSize: int, service: EmbeddingService, k: nat, r: nat)
    requires batchSize > 0
    requires forall b :: b in Batches(texts, batchSize) ==> |service(b, model)| == |b|
    requires k < |Batches(texts, batchSize)| && r < |Batches(texts, batchSize)[k]|
    ensures |Embedded(service, model, Batches(texts, batchSize))| == |texts|
    ensures 0 <= Offset(k, batchSize) && Offset(k, batchSize) + r < |texts|
    ensures texts[Offset(k, batchSize) + r] == Batches(texts, batchSize)[k][r]
    ensures Embedded(service, model, Batches(texts, batchSize))[Offset(k, batchSize) + r]
            == service(Batches(texts, batchSize)[k], model)[r]
  {
    var batches := Batches(texts, batchSize);
    var responses := Responses(service, model, batches);
    BatchesPartition(texts, batchSize);
    forall m | 0 <= m < |batches|
      ensures |responses[m]| == |batches[m]|
    {
      assert batches[m] in batches;
    }
    FlattenLength(batches, responses);
    FlattenAt(batches, batchSize, k, r);
    FlattenAt(responses, batchSize, k, r);
  }

  /** If the service embeds every text on its own (its vector for a text is
      `single(text)`, whatever else is in the batch), the result is exactly
      `single` of each input, in input order, whatever the batch size. */
  lemma EmbeddingsPointwise(texts: seq<string>, model: string, batchSize: int, service: EmbeddingService,
                            single: string -> Vector)
    requires batchSize > 0
    requires forall b :: |service(b, model)| == |b|
    requires forall b, r :: 0 <= r < |b| ==> service(b, model)[r] == single(b[r])
    ensures Embedded(service, model, Batches(texts, batchSize)) == seq(|texts|, j requires 0 <= j < |texts| => single(texts[j]))
  {
    var batches := Batches(texts, batchSize);
    var out := Embedded(service, model, batches);
    var want := seq(|texts|, j requires 0 <= j < |texts| => single(texts[j]));
    if |texts| == 0 {
      assert batches == [];
    } else {
      EmbeddingsAligned(texts, model, batchSize, service, 0, 0);
      forall j | 0 <= j < |texts|
        ensures out[j] == want[j]
      {
        var k := StrideOf(j, batchSize);
        var r := j - Offset(k, batchSize);
        WindowsAt(texts, 0, batchSize, batchSize, k);
        BatchAt(texts, batchSize, k);
        EmbeddingsAligned(texts, model, batchSize, service, k, r);
      }
    }
    assert out == want;
  }

  /** A chunk dictionary that `embed_chunks` updates in place. */
  class ChunkDict {
    var content: string
    var metadata: map<string, MetaValue>
    var embedding: Option<Vector>

    /** The dictionary of a record `process_documents` built: no embedding
        yet. */
    constructor (record: Ingest.ChunkRecord)
      ensures content == record.content && metadata == record.metadata && embedding == None
    {
      content := record.content;
      metadata := record.metadata;
      embedding := None;
    }
  }

  /** `[chunk["content"] for chunk in chunks]`. */
  function Texts(chunks: seq<ChunkDict>): (texts: seq<string>)
    reads chunks
    ensures |texts| == |chunks|
    ensures forall k :: 0 <= k < |chunks| ==> texts[k] == chunks[k].content
  {
    if chunks == [] then [] else Texts(chunks[..|chunks| - 1]) + [chunks[|chunks| - 1].content]
  }

  /** The last position of `c` in `chunks`, or -1: the write that wins when
      the same dictionary occurs more than once in the list. */
  function LastIndex(chunks: seq<ChunkDict>, c: ChunkDict): (i: int)
    ensures -1 <= i < |chunks|
    ensures 0 <= i ==> chunks[i] == c
    ensures 0 <= i ==> forall j :: i < j < |chunks| ==> chunks[j] != c
    ensures i == -1 <==> c !in chunks
  {
    if chunks == [] then -1
    else if chunks[|chunks| - 1] == c then |chunks| - 1
    else LastIndex(chunks[..|chunks| - 1], c)
  }

  /** Looking one position further: `chunks[i]` is now the last occurrence
      of itself, and every other dictionary keeps its last position. */
  lemma LastIndexStep(chunks: seq<ChunkDict>, i: nat, c: ChunkDict)
    requires i < |chunks|
    ensures LastIndex(chunks[..i + 1], c) == if c == chunks[i] then i else LastIndex(chunks[..i], c)
  {
    assert chunks[..i + 1][..i] == chunks[..i];
  }

  /** When no dictionary occurs twice in the list, chunk `k` receives vector
      `k` if `k < m` (the number of pairs `zip` forms) and keeps its old
      embedding otherwise. */
  lemma DistinctChunksOwnVector(chunks: seq<ChunkDict>, m: nat, k: nat)
    requires m <= |chunks| && k < |chunks|
    requires forall i, j :: 0 <= i < j < |chunks| ==> chunks[i] != chunks[j]
    ensures LastIndex(chunks[..m], chunks[k]) == if k < m then k else -1
  {
    var w := LastIndex(chunks[..m], chunks[k]);
    if 0 <= w {
      assert chunks[w] == chunks[k];
    }
  }

  /** The loop `for chunk, embedding in zip(chunks, embeddings)`: vector
      `k` goes to chunk `k` for as many pairs as `zip` forms (it stops at
      the shorter list); a dictionary listed twice keeps the vector of its
      last position, one not among the first `m` keeps its old embedding.
      Nothing but `embedding` changes. */
  method StoreVectors(chunks: seq<ChunkDict>, vectors: seq<Vector>)
    modifies chunks
    ensures forall c :: c in chunks ==> c.content == old(c.content) && c.metadata == old(c.metadata)
    ensures forall c :: c in chunks ==>
              c.embedding
              == (var w := LastIndex(chunks[..Min(|chunks|, |vectors|)], c);
                  if w < 0 then old(c.embedding) else Some(vectors[w]))
  {
    var m := Min(|chunks|, |vectors|);
    var i := 0;
    while i < m
      invariant 0 <= i <= m
      invariant forall c :: c in chunks ==> c.content == old(c.content) && c.metadata == old(c.metadata)
      invariant forall c :: c in chunks ==>
                  c.embedding
                  == (var w := LastIndex(chunks[..i], c); if w < 0 then old(c.embedding) else Some(vectors[w]))
    {
      forall c | c in chunks
        ensures LastIndex(chunks[..i + 1], c) == if c == chunks[i] then i else LastIndex(chunks[..i], c)
      {
        LastIndexStep(chunks, i, c);
      }
      chunks[i].embedding := Some(vectors[i]);
      i := i + 1;
    }
  }

  /** `embed_chunks`: embeds the chunks' contents with the default model in
      batches of 100, stores the vectors as `StoreVectors` does, and returns
      the same list. */
  method EmbedChunks(chunks: seq<ChunkDict>, service: EmbeddingService) returns (result: seq<ChunkDict>)
    modifies chunks
    ensures result == chunks
    ensures forall c :: c in chunks ==> c.content == old(c.content) && c.metadata == old(c.metadata)
    ensures var vectors := Embedded(service, DefaultModel, Batches(old(Texts(chunks)), DefaultBatchSize));
            forall c :: c in chunks ==>
              c.embedding
              == (var w := LastIndex(chunks[..Min(|chunks|, |vectors|)], c);
                  if w < 0 then old(c.embedding) else Some(vectors[w]))
  {
    var texts := Texts(chunks);
    var vectors, _ := GenerateEmbeddings(texts, DefaultModel, DefaultBatchSize, service);
    StoreVectors(chunks, vectors);
    result := chunks;
  }
}
