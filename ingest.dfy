/** Document ingestion: the sliding-window chunker (`chunk_document`) and the
    assembly of per-chunk records (`process_documents`).  Documents are given
    as a sequence; reading them from a directory is not part of this model. */
module Ingest {
  import opened Values
  import opened Slicing

  /** A loaded document: its text and its metadata (`source`, `path`). */
  datatype Document = Document(content: string, metadata: map<string, MetaValue>)

  /** A chunk dictionary as `process_documents` builds it. */
  datatype ChunkRecord = ChunkRecord(content: string, metadata: map<string, MetaValue>)

  /** The inputs on which `chunk_document` returns: one of its two early exits
      is taken, or the window advances (`overlap < chunk_size`).  Nothing in
      the function checks this; on every other input the loop never exits
      (see `LoopNeverExits`). */
  predicate ChunkingHalts(content: string, chunkSize: int, overlap: int)
  {
    |content| == 0 || |content| <= chunkSize || overlap < chunkSize
  }

  /** What `chunk_document` returns. */
  function Chunks(content: string, chunkSize: int, overlap: int): seq<string>
    requires ChunkingHalts(content, chunkSize, overlap)
  {
    if |content| == 0 then []
    else if |content| <= chunkSize then [content]
    else Windows(content, 0, chunkSize, chunkSize - overlap)
  }

  /** `chunk_document`: the two early exits, then a window of `chunk_size`
      characters advancing by `chunk_size - overlap` while its start is
      inside the content. */
  method ChunkDocument(content: string, chunkSize: int, overlap: int) returns (chunks: seq<string>)
    requires ChunkingHalts(content, chunkSize, overlap)
    ensures chunks == Chunks(content, chunkSize, overlap)
    ensures |content| == 0 ==> chunks == []
    ensures 0 < |content| <= chunkSize ==> chunks == [content]
  {
    if |content| == 0 {
      return [];
    }
    if |content| <= chunkSize {
      return [content];
    }
    chunks := [];
    var start := 0;
    var step := chunkSize - overlap;
    ghost var all := Windows(content, 0, chunkSize, step);
    while start < |content|
      invariant 0 <= start
      invariant chunks + Windows(content, start, chunkSize, step) == all
      decreases |content| - start
    {
      var end := start + chunkSize;
      var chunk := PySlice(content, start, end);
      WindowsStep(chunks, all, content, start, chunkSize, step);
      chunks := chunks + [chunk];
      start := start + step;
    }
    assert chunks == all;
  }

  /** Where chunk `k` starts in the content: `k * (chunk_size - overlap)` on
      the long-content path, 0 for the single chunk of short content. */
  function ChunkStart(content: string, chunkSize: int, overlap: int, k: nat): int
  {
    if |content| <= chunkSize || chunkSize <= overlap then 0 else Offset(k, chunkSize - overlap)
  }

  /** On the long-content path chunk `k` is
      `content[k*step .. min(k*step + chunk_size, len)]` with
      `step = chunk_size - overlap`. */
  lemma ChunkAt(content: string, chunkSize: int, overlap: int, k: nat)
    requires 0 < chunkSize < |content| && overlap < chunkSize
    requires k < |Chunks(content, chunkSize, overlap)|
    ensures 0 <= ChunkStart(content, chunkSize, overlap, k) < |content|
    ensures Chunks(content, chunkSize, overlap)[k]
            == content[ChunkStart(content, chunkSize, overlap, k)..Min(ChunkStart(content, chunkSize, overlap, k) + chunkSize, |content|)]
  {
    var step := chunkSize - overlap;
    var start := Offset(k, step);
    WindowsAt(content, 0, chunkSize, step, k);
    OffsetNonNegative(k, step);
    WindowAt(content, 0, chunkSize, step, k);
    WindowShape(content, start, chunkSize);
  }

  /** On the long-content path there are `ceil(len / step)` chunks, and
      chunk `k` is the window `ChunkAt` describes, starting at
      `k * (chunk_size - overlap)`. */
  lemma LongContentChunks(content: string, chunkSize: int, overlap: int)
    requires 0 < chunkSize < |content| && overlap < chunkSize
    ensures |Chunks(content, chunkSize, overlap)| == CeilDiv(|content|, chunkSize - overlap)
    ensures forall k :: 0 <= k < |Chunks(content, chunkSize, overlap)| ==>
              var at := ChunkStart(content, chunkSize, overlap, k);
              at == k * (chunkSize - overlap) && 0 <= at < |content| &&
              Chunks(content, chunkSize, overlap)[k] == content[at..Min(at + chunkSize, |content|)]
  {
    WindowsCount(content, chunkSize, chunkSize - overlap);
    forall k | 0 <= k < |Chunks(content, chunkSize, overlap)|
      ensures var at := ChunkStart(content, chunkSize, overlap, k);
              at == k * (chunkSize - overlap) && 0 <= at < |content| &&
              Chunks(content, chunkSize, overlap)[k] == content[at..Min(at + chunkSize, |content|)]
    {
      ChunkAt(content, chunkSize, overlap, k);
      OffsetIsProduct(k, chunkSize - overlap);
    }
  }

  /** Every chunk is non-empty and at most `chunk_size` long. */
  lemma ChunkSizes(content: string, chunkSize: int, overlap: int)
    requires 0 < chunkSize && ChunkingHalts(content, chunkSize, overlap)
    ensures forall c :: c in Chunks(content, chunkSize, overlap) ==> 0 < |c| <= chunkSize
  {
    if |content| > chunkSize {
      var chunks := Chunks(content, chunkSize, overlap);
      forall c | c in chunks
        ensures 0 < |c| <= chunkSize
      {
        var k :| 0 <= k < |chunks| && chunks[k] == c;
        ChunkAt(content, chunkSize, overlap, k);
      }
    }
  }

  /** Consecutive chunks overlap: chunk `k+1` begins with what chunk `k` holds
      past its first `step` characters, and when chunk `k` is full length
      that is exactly its last `overlap` characters. */
  lemma ChunkOverlap(content: string, chunkSize: int, overlap: int, k: nat)
    requires 0 <= overlap < chunkSize < |content|
    requires k + 1 < |Chunks(content, chunkSize, overlap)|
    ensures chunkSize - overlap <= |Chunks(content, chunkSize, overlap)[k]|
    ensures Chunks(content, chunkSize, overlap)[k][chunkSize - overlap..]
            <= Chunks(content, chunkSize, overlap)[k + 1]
    ensures |Chunks(content, chunkSize, overlap)[k]| == chunkSize ==>
              Chunks(content, chunkSize, overlap)[k][chunkSize - overlap..]
              == Chunks(content, chunkSize, overlap)[k + 1][..overlap]
  {
    var chunks := Chunks(content, chunkSize, overlap);
    var step := chunkSize - overlap;
    ChunkAt(content, chunkSize, overlap, k);
    ChunkAt(content, chunkSize, overlap, k + 1);
    var s0 := ChunkStart(content, chunkSize, overlap, k);
    var s1 := ChunkStart(content, chunkSize, overlap, k + 1);
    assert s1 == s0 + step;
    var e0 := Min(s0 + chunkSize, |content|);
    var e1 := Min(s1 + chunkSize, |content|);
    assert chunks[k][step..] == content[s1..e0];
  }

  /** Every chunk is the content at its start offset. */
  lemma ChunkInPlace(content: string, chunkSize: int, overlap: int, k: nat)
    requires 0 < chunkSize && ChunkingHalts(content, chunkSize, overlap)
    requires k < |Chunks(content, chunkSize, overlap)|
    ensures var at := ChunkStart(content, chunkSize, overlap, k);
            0 <= at <= at + |Chunks(content, chunkSize, overlap)[k]| <= |content| &&
            content[at..at + |Chunks(content, chunkSize, overlap)[k]|] == Chunks(content, chunkSize, overlap)[k]
  {
    if |content| > chunkSize {
      ChunkAt(content, chunkSize, overlap, k);
    }
  }

  /** No content is lost (for `0 <= overlap`): every offset `i` of the
      content lies inside some chunk. */
  lemma ChunksCover(content: string, chunkSize: int, overlap: int, i: nat)
    requires 0 <= overlap < chunkSize && i < |content|
    ensures exists k :: 0 <= k < |Chunks(content, chunkSize, overlap)| &&
              ChunkStart(content, chunkSize, overlap, k) <= i
              < ChunkStart(content, chunkSize, overlap, k) + |Chunks(content, chunkSize, overlap)[k]|
  {
    if |content| > chunkSize {
      var step := chunkSize - overlap;
      var k := StrideOf(i, step);
      WindowsAt(content, 0, chunkSize, step, k);
      ChunkAt(content, chunkSize, overlap, k);
    } else {
      assert ChunkStart(content, chunkSize, overlap, 0) == 0;
    }
  }

  /** The last chunk ends at the end of the content (for `0 <= overlap`). */
  lemma LastChunkReachesEnd(content: string, chunkSize: int, overlap: int)
    requires 0 <= overlap < chunkSize && 0 < |content|
    ensures var n := |Chunks(content, chunkSize, overlap)|;
            0 < n && ChunkStart(content, chunkSize, overlap, n - 1) + |Chunks(content, chunkSize, overlap)[n - 1]| == |content|
  {
    if |content| > chunkSize {
      var step := chunkSize - overlap;
      var n := |Chunks(content, chunkSize, overlap)|;
      WindowsAt(content, 0, chunkSize, step, 0);
      WindowsAt(content, 0, chunkSize, step, n);
      ChunkAt(content, chunkSize, overlap, n - 1);
    }
  }

  /** The metadata of record `index` of a document with `total` chunks: the
      document's own metadata plus `chunk_index` and `total_chunks`. */
  function Annotate(metadata: map<string, MetaValue>, index: nat, total: nat): map<string, MetaValue>
  {
    metadata["chunk_index" := Int(index)]["total_chunks" := Int(total)]
  }

  /** The records of one document. */
  function DocumentRecords(doc: Document, chunkSize: int, overlap: int): seq<ChunkRecord>
    requires ChunkingHalts(doc.content, chunkSize, overlap)
  {
    var chunks := Chunks(doc.content, chunkSize, overlap);
    seq(|chunks|, i requires 0 <= i < |chunks| => ChunkRecord(chunks[i], Annotate(doc.metadata, i, |chunks|)))
  }

  predicate AllHalt(docs: seq<Document>, chunkSize: int, overlap: int)
  {
    forall k :: 0 <= k < |docs| ==> ChunkingHalts(docs[k].content, chunkSize, overlap)
  }

  /** What `process_documents` returns: the records of each document, in
      document order. */
  function ProcessedRecords(docs: seq<Document>, chunkSize: int, overlap: int): seq<ChunkRecord>
    requires AllHalt(docs, chunkSize, overlap)
  {
    if docs == [] then []
    else ProcessedRecords(docs[..|docs| - 1], chunkSize, overlap) + DocumentRecords(docs[|docs| - 1], chunkSize, overlap)
  }

  /** The number of chunks the documents are split into. */
  function TotalChunks(docs: seq<Document>, chunkSize: int, overlap: int): nat
    requires AllHalt(docs, chunkSize, overlap)
  {
    if docs == [] then 0
    else TotalChunks(docs[..|docs| - 1], chunkSize, overlap) + |Chunks(docs[|docs| - 1].content, chunkSize, overlap)|
  }

  /** `process_documents` over already loaded documents: for each document,
      chunk it, then append one record per chunk. */
  method ProcessDocuments(docs: seq<Document>, chunkSize: int, overlap: int) returns (records: seq<ChunkRecord>)
    requires AllHalt(docs, chunkSize, overlap)
    ensures records == ProcessedRecords(docs, chunkSize, overlap)
  {
    records := [];
    for j := 0 to |docs|
      invariant records == ProcessedRecords(docs[..j], chunkSize, overlap)
    {
      var doc := docs[j];
      var chunks := ChunkDocument(doc.content, chunkSize, overlap);
      ghost var before := records;
      ghost var docRecords := DocumentRecords(doc, chunkSize, overlap);
      for i := 0 to |chunks|
        invariant records == before + docRecords[..i]
      {
        RecordAt(doc, chunkSize, overlap, i);
        AppendNext(before, docRecords, i);
        records := records + [ChunkRecord(chunks[i], Annotate(doc.metadata, i, |chunks|))];
      }
      assert docRecords[..|chunks|] == docRecords;
      ProcessedSnoc(docs, chunkSize, overlap, j);
    }
    assert docs[..|docs|] == docs;
  }

  /** Record `i` of a document pairs chunk `i` with the annotated metadata. */
  lemma RecordAt(doc: Document, chunkSize: int, overlap: int, i: nat)
    requires ChunkingHalts(doc.content, chunkSize, overlap)
    requires i < |Chunks(doc.content, chunkSize, overlap)|
    ensures var chunks := Chunks(doc.content, chunkSize, overlap);
            |DocumentRecords(doc, chunkSize, overlap)| == |chunks|
            && DocumentRecords(doc, chunkSize, overlap)[i] == ChunkRecord(chunks[i], Annotate(doc.metadata, i, |chunks|))
  {
  }

  /** Processing one more document appends its records. */
  lemma ProcessedSnoc(docs: seq<Document>, chunkSize: int, overlap: int, j: nat)
    requires AllHalt(docs, chunkSize, overlap) && j < |docs|
    ensures ProcessedRecords(docs[..j + 1], chunkSize, overlap)
            == ProcessedRecords(docs[..j], chunkSize, overlap) + DocumentRecords(docs[j], chunkSize, overlap)
  {
    TakeTake(docs, j + 1, j);
  }

  /** There is one record per chunk. */
  lemma {:induction false} RecordsCount(docs: seq<Document>, chunkSize: int, overlap: int)
    requires AllHalt(docs, chunkSize, overlap)
    ensures |ProcessedRecords(docs, chunkSize, overlap)| == TotalChunks(docs, chunkSize, overlap)
    decreases |docs|
  {
    if docs != [] {
      RecordsCount(docs[..|docs| - 1], chunkSize, overlap);
    }
  }

  /** Chunk `i` of document `j` is the record at offset `i` past the chunks
      of the documents before it. */
  lemma {:induction false} RecordPosition(docs: seq<Document>, chunkSize: int, overlap: int, j: nat, i: nat)
    requires AllHalt(docs, chunkSize, overlap) && j < |docs|
    requires i < |Chunks(docs[j].content, chunkSize, overlap)|
    ensures TotalChunks(docs[..j], chunkSize, overlap) + i < |ProcessedRecords(docs, chunkSize, overlap)|
    ensures ProcessedRecords(docs, chunkSize, overlap)[TotalChunks(docs[..j], chunkSize, overlap) + i]
            == DocumentRecords(docs[j], chunkSize, overlap)[i]
    decreases |docs|
  {
    var last := |docs| - 1;
    var init := docs[..last];
    var before := ProcessedRecords(init, chunkSize, overlap);
    var lastRecords := DocumentRecords(docs[last], chunkSize, overlap);
    assert ProcessedRecords(docs, chunkSize, overlap) == before + lastRecords;
    RecordsCount(init, chunkSize, overlap);
    if j == last {
      assert docs[..j] == init;
      AppendRight(before, lastRecords, i);
    } else {
      RecordPosition(init, chunkSize, overlap, j, i);
      TakeTake(docs, last, j);
      AppendLeft(before, lastRecords, TotalChunks(docs[..j], chunkSize, overlap) + i);
    }
  }

  /** Record `i` of a document holds chunk `i`, keeps every other metadata
      entry of the document, and carries its position `chunk_index` and the
      document's chunk count `total_chunks`. */
  lemma RecordFields(doc: Document, chunkSize: int, overlap: int, i: nat)
    requires ChunkingHalts(doc.content, chunkSize, overlap)
    requires i < |Chunks(doc.content, chunkSize, overlap)|
    ensures var r := DocumentRecords(doc, chunkSize, overlap)[i];
            var chunks := Chunks(doc.content, chunkSize, overlap);
            && r.content == chunks[i]
            && r.metadata.Keys == doc.metadata.Keys + {"chunk_index", "total_chunks"}
            && r.metadata["chunk_index"] == Int(i)
            && r.metadata["total_chunks"] == Int(|chunks|)
            && forall key :: key in doc.metadata && key != "chunk_index" && key != "total_chunks" ==>
                 r.metadata[key] == doc.metadata[key]
  {
  }

  /** Why a checked chunker refuses its arguments: an overlap that stops
      the window from advancing. */
  datatype ChunkError = OverlapNotBelowChunkSize

  /** As written, `chunk_document` never returns on long content when
      `overlap >= chunk_size`: after any number of passes `start`, which is
      `Offset(iterations, chunk_size - overlap)`, is still below
      `len(content)`, so the loop guard holds again. */
  lemma {:induction false} LoopNeverExits(content: string, chunkSize: int, overlap: int, iterations: nat)
    requires 0 < |content| && chunkSize < |content| && chunkSize <= overlap
    ensures Offset(iterations, chunkSize - overlap) <= 0 < |content|
  {
    if iterations > 0 {
      LoopNeverExits(content, chunkSize, overlap, iterations - 1);
    }
  }

  /** `chunk_document` with the argument check it lacks: an overlap that is
      not below the chunk size is refused before any work, and every other
      input gives the chunks the loop computes. */
  function ChunkDocumentChecked(content: string, chunkSize: int, overlap: int): (r: Result<seq<string>, ChunkError>)
    ensures r.Failure? <==> chunkSize <= overlap
    ensures r.Success? ==> r.value == Chunks(content, chunkSize, overlap)
  {
    if chunkSize <= overlap then Failure(OverlapNotBelowChunkSize)
    else Success(Chunks(content, chunkSize, overlap))
  }
}
