/**
 * Record building, batching and result formatting of src/embeddings.py.
 *
 * The sentence embedder is an opaque function from a text to a vector, the vector
 * store an append-only sequence of records, and its nearest-neighbour query an opaque
 * function of the query vector, the requested count and the stored records.
 */
module Embeddings {
  import opened Wrappers
  import opened Text
  import opened Chunker
  import opened Records

  /** The chunking parameters `add_documents` passes to `chunk_text` (line 38). */
  const ChunkSize: int := 800
  const ChunkOverlap: int := 100
  /** The number of records sent to the store in one `add` call (line 54). */
  const BatchSize: nat := 50

  type Vector = seq<real>

  /** A record before it gets an id and a vector: its text and its metadata. */
  datatype Entry = Entry(text: string, metadata: Metadata)

  /** A record as the store keeps it. */
  datatype StoredRecord = StoredRecord(id: string, document: string, embedding: Vector, metadata: Metadata)

  /** What the store's query hands back: parallel lists per query vector, or an exception. */
  datatype QueryResponse =
    | QueryFailed(message: string)
    | QueryResult(documents: seq<seq<string>>, metadatas: seq<seq<Metadata>>, distances: seq<seq<real>>)

  /** The record text and metadata built for the chunk at position `index` (lines 42-48). */
  function EntryFor(doc: Document, chunk: string, index: nat): Entry {
    var title := doc.title.GetOr("");
    Entry("Title: " + title + "\n\nContent: " + chunk,
          Metadata(Some(doc.source.GetOr("Unknown")), Some(doc.url.GetOr("")), Some(title), Some(index)))
  }

  /** The chunk index stored in an entry's metadata, -1 when there is none. */
  function ChunkIndex(e: Entry): int {
    match e.metadata.chunkIndex
    case Some(i) => i
    case None => -1
  }

  /** The entries of one document's chunks, blank chunks skipped (lines 39-48). */
  function ChunkEntries(doc: Document, chunks: seq<string>): seq<Entry>
    decreases |chunks|
  {
    if chunks == [] then []
    else
      var i := |chunks| - 1;
      ChunkEntries(doc, chunks[..i]) + (if Strip(chunks[i]) == "" then [] else [EntryFor(doc, chunks[i], i)])
  }

  /** The entries of one document: none for an error document (lines 36-48). */
  function DocumentEntries(doc: Document): seq<Entry> {
    if doc.error.Some? then []
    else ChunkEntries(doc, Chunking(doc.content.GetOr(""), ChunkSize, ChunkOverlap))
  }

  /** The entries of all documents, in document order (lines 35-49). */
  function BuildEntries(docs: seq<Document>): seq<Entry>
    decreases |docs|
  {
    if docs == [] then []
    else BuildEntries(docs[..|docs| - 1]) + DocumentEntries(docs[|docs| - 1])
  }

  /** The documents without an error key. */
  function Succeeded(docs: seq<Document>): seq<Document>
    decreases |docs|
  {
    if docs == [] then []
    else
      var last := docs[|docs| - 1];
      Succeeded(docs[..|docs| - 1]) + (if last.error.None? then [last] else [])
  }

  /** Consecutive slices of `s` of `n` elements each, the last one possibly shorter (lines 56-59). */
  function Batches<T>(s: seq<T>, n: nat): seq<seq<T>>
    requires 1 <= n
    decreases |s|
  {
    if s == [] then []
    else
      var m := Min(n, |s|);
      [s[..m]] + Batches(s[m..], n)
  }

  function Flatten<T>(ss: seq<seq<T>>): seq<T>
    decreases |ss|
  {
    if ss == [] then [] else ss[0] + Flatten(ss[1..])
  }

  /** The records one `collection.add` call stores from its parallel lists (lines 62-67). */
  function Stored(ids: seq<string>, docs: seq<string>, vectors: seq<Vector>, metas: seq<Metadata>): seq<StoredRecord>
    requires |ids| == |docs| == |vectors| == |metas|
  {
    seq(|ids|, k requires 0 <= k < |ids| => StoredRecord(ids[k], docs[k], vectors[k], metas[k]))
  }

  /**
   * The query answered usefully: a non-empty first document list, with metadata and
   * distance lists long enough that no index is out of range.
   */
  predicate Answered(resp: QueryResponse) {
    resp.QueryResult? && |resp.documents| > 0 && |resp.documents[0]| > 0
    && |resp.metadatas| > 0 && |resp.distances| > 0
    && |resp.documents[0]| <= |resp.metadatas[0]| && |resp.documents[0]| <= |resp.distances[0]|
  }

  /**
   * What `search_similar` returns for a query response: the formatted first result list,
   * or nothing when the response is empty, failed, or too short (an `IndexError`) (lines 81-92).
   */
  function SearchResults(resp: QueryResponse): seq<SearchResult> {
    if Answered(resp) then
      seq(|resp.documents[0]|, k requires 0 <= k < |resp.documents[0]| =>
        SearchResult(resp.documents[0][k], resp.metadatas[0][k], 1.0 - resp.distances[0][k]))
    else []
  }

  class EmbeddingsManager {
    /** The sentence embedder applied to one text. */
    const embed: string -> Vector
    /** The store's nearest-neighbour query over the stored records. */
    const nearest: (Vector, int, seq<StoredRecord>) -> QueryResponse
    /** The id handed out by the n-th draw of a fresh UUID. */
    const uuid: nat -> string
    /** The records in the store, in the order they were added. */
    var collection: seq<StoredRecord>
    /** How many UUIDs have been drawn so far. */
    var uuidsDrawn: nat
    /** Every `add` call made to the store, in order. */
    ghost var batches: seq<seq<StoredRecord>>

    /** A manager over a store that may already hold records. */
    constructor(embed: string -> Vector, nearest: (Vector, int, seq<StoredRecord>) -> QueryResponse,
                uuid: nat -> string, existing: seq<StoredRecord>)
      ensures this.embed == embed && this.nearest == nearest && this.uuid == uuid
      ensures collection == existing && uuidsDrawn == 0 && batches == []
    {
      this.embed := embed;
      this.nearest := nearest;
      this.uuid := uuid;
      collection := existing;
      uuidsDrawn := 0;
      batches := [];
    }

    /** `create_embeddings`: one vector per text. */
    function CreateEmbeddings(texts: seq<string>): seq<Vector> {
      seq(|texts|, k requires 0 <= k < |texts| => embed(texts[k]))
    }

    /** The stored form of `es` when their ids are drawn from the `first`-th UUID on. */
    function Records(es: seq<Entry>, first: nat): seq<StoredRecord> {
      seq(|es|, k requires 0 <= k < |es| => StoredRecord(uuid(first + k), es[k].text, embed(es[k].text), es[k].metadata))
    }

    /** The three lists built by `add_documents` run parallel to `built`. */
    predicate Parallel(documents: seq<string>, metadatas: seq<Metadata>, ids: seq<string>, built: seq<Entry>, first: nat) {
      |documents| == |built| && |metadatas| == |built| && |ids| == |built|
      && forall k :: 0 <= k < |built| ==>
           documents[k] == built[k].text && metadatas[k] == built[k].metadata && ids[k] == uuid(first + k)
    }

    /**
     * `add_documents`: builds one record per non-blank chunk of every document without
     * an error, then adds them to the store in consecutive batches and returns the total.
     */
    method AddDocuments(docs: seq<Document>) returns (total: nat)
      modifies this
      ensures total == |BuildEntries(docs)|
      ensures uuidsDrawn == old(uuidsDrawn) + |BuildEntries(docs)|
      ensures collection == old(collection) + Records(BuildEntries(docs), old(uuidsDrawn))
      ensures batches == old(batches) + Batches(Records(BuildEntries(docs), old(uuidsDrawn)), BatchSize)
    {
      var documents: seq<string> := [];
      var metadatas: seq<Metadata> := [];
      var ids: seq<string> := [];
      ghost var built: seq<Entry> := [];
      ghost var first := uuidsDrawn;
      var d := 0;
      while d < |docs|
        invariant 0 <= d <= |docs|
        invariant built == BuildEntries(docs[..d])
        invariant Parallel(documents, metadatas, ids, built, first)
        invariant uuidsDrawn == first + |built|
        invariant collection == old(collection) && batches == old(batches)
      {
        var doc := docs[d];
        BuildEntriesStep(docs, d);
        if doc.error.None? {
          var chunks := ChunkText(doc.content.GetOr(""), ChunkSize, ChunkOverlap);
          documents, metadatas, ids, built := AddChunks(doc, chunks, documents, metadatas, ids, built, first);
        }
        d := d + 1;
      }
      assert docs[..|docs|] == docs;

      if |documents| == 0 {
        return 0;
      }

      total := StoreInBatches(documents, metadatas, ids, built, first);
    }

    /**
     * The batch loop of `add_documents`: the parallel lists go to the store fifty at a
     * time, each batch with its vectors, and the sizes are summed (lines 53-70).
     */
    method StoreInBatches(documents: seq<string>, metadatas: seq<Metadata>, ids: seq<string>,
                          ghost built: seq<Entry>, ghost first: nat) returns (total: nat)
      modifies this
      requires Parallel(documents, metadatas, ids, built, first)
      ensures total == |built|
      ensures collection == old(collection) + Records(built, first)
      ensures batches == old(batches) + Batches(Records(built, first), BatchSize)
      ensures uuidsDrawn == old(uuidsDrawn)
    {
      ghost var stored := Records(built, first);
      var n := |documents|;
      total := 0;
      var i := 0;
      while i < n
        invariant 0 <= i
        invariant total == Min(i, n)
        invariant collection == old(collection) + stored[..Min(i, n)]
        invariant batches + Batches(stored[Min(i, n)..], BatchSize) == old(batches) + Batches(stored, BatchSize)
        invariant uuidsDrawn == old(uuidsDrawn)
      {
        var hi := Min(i + BatchSize, n);
        var batchDocs := documents[i..hi];
        var batchMeta := metadatas[i..hi];
        var batchIds := ids[i..hi];
        var vectors := CreateEmbeddings(batchDocs);
        var added := Stored(batchIds, batchDocs, vectors, batchMeta);
        StoreBatch(stored, documents, metadatas, ids, built, first, i, hi, added);
        collection := collection + added;
        batches := batches + [added];
        total := total + |batchDocs|;
        i := i + BatchSize;
      }
    }

    /**
     * The inner loop of `add_documents`: one record per non-blank chunk of `doc`,
     * appended to the three parallel lists (lines 39-49).
     */
    method AddChunks(doc: Document, chunks: seq<string>, documents: seq<string>, metadatas: seq<Metadata>,
                     ids: seq<string>, ghost built: seq<Entry>, ghost first: nat)
      returns (documents': seq<string>, metadatas': seq<Metadata>, ids': seq<string>, ghost built': seq<Entry>)
      modifies this
      requires Parallel(documents, metadatas, ids, built, first) && uuidsDrawn == first + |built|
      ensures built' == built + ChunkEntries(doc, chunks)
      ensures Parallel(documents', metadatas', ids', built', first) && uuidsDrawn == first + |built'|
      ensures collection == old(collection) && batches == old(batches)
    {
      documents', metadatas', ids', built' := documents, metadatas, ids, built;
      var i := 0;
      while i < |chunks|
        invariant 0 <= i <= |chunks|
        invariant built' == built + ChunkEntries(doc, chunks[..i])
        invariant Parallel(documents', metadatas', ids', built', first)
        invariant uuidsDrawn == first + |built'|
        invariant collection == old(collection) && batches == old(batches)
      {
        var chunk := chunks[i];
        if Strip(chunk) != "" {
          var e := EntryFor(doc, chunk, i);
          var id := uuid(uuidsDrawn);
          KeepChunk(doc, chunks, i, documents', metadatas', ids', built, built', first, e, id);
          documents' := documents' + [e.text];
          metadatas' := metadatas' + [e.metadata];
          ids' := ids' + [id];
          built' := built' + [e];
          uuidsDrawn := uuidsDrawn + 1;
        } else {
          ChunkEntriesStep(doc, chunks, i);
        }
        i := i + 1;
      }
      assert chunks[..|chunks|] == chunks;
    }

    /** Appending the record of a non-blank chunk keeps the lists parallel to the entries so far. */
    lemma KeepChunk(doc: Document, chunks: seq<string>, i: nat, documents: seq<string>, metadatas: seq<Metadata>,
                    ids: seq<string>, built: seq<Entry>, built': seq<Entry>, first: nat, e: Entry, id: string)
      requires i < |chunks| && Strip(chunks[i]) != "" && e == EntryFor(doc, chunks[i], i)
      requires built' == built + ChunkEntries(doc, chunks[..i])
      requires Parallel(documents, metadatas, ids, built', first) && id == uuid(first + |built'|)
      ensures built' + [e] == built + ChunkEntries(doc, chunks[..i + 1])
      ensures Parallel(documents + [e.text], metadatas + [e.metadata], ids + [id], built' + [e], first)
    {
      ChunkEntriesStep(doc, chunks, i);
      AppendEntry(built, ChunkEntries(doc, chunks[..i]), e);
      ParallelAppend(documents, metadatas, ids, built', first, e, id);
    }

    lemma ParallelAppend(documents: seq<string>, metadatas: seq<Metadata>, ids: seq<string>,
                         built: seq<Entry>, first: nat, e: Entry, id: string)
      requires Parallel(documents, metadatas, ids, built, first) && id == uuid(first + |built|)
      ensures Parallel(documents + [e.text], metadatas + [e.metadata], ids + [id], built + [e], first)
    {
    }

    /** One pass of the batch loop stores exactly the next slice of the records. */
    lemma StoreBatch(stored: seq<StoredRecord>, documents: seq<string>, metadatas: seq<Metadata>, ids: seq<string>,
                     built: seq<Entry>, first: nat, i: nat, hi: nat, added: seq<StoredRecord>)
      requires Parallel(documents, metadatas, ids, built, first) && stored == Records(built, first)
      requires i < hi <= |built| && hi == Min(i + BatchSize, |built|)
      requires added == Stored(ids[i..hi], documents[i..hi], CreateEmbeddings(documents[i..hi]), metadatas[i..hi])
      ensures added == stored[i..hi]
      ensures Batches(stored[i..], BatchSize) == [added] + Batches(stored[hi..], BatchSize)
    {
      assert stored[i..][..hi - i] == stored[i..hi];
      assert stored[i..][hi - i..] == stored[hi..];
    }

    /**
     * `search_similar`: embeds the query, asks the store for `nResults` neighbours and
     * formats the first result list (lines 72-92).
     */
    method SearchSimilar(query: string, nResults: int) returns (formatted: seq<SearchResult>)
      ensures formatted == SearchResults(nearest(embed(query), nResults, collection))
    {
      var queryVector := CreateEmbeddings([query])[0];
      var response := nearest(queryVector, nResults, collection);
      if response.QueryFailed? || |response.documents| == 0 || |response.documents[0]| == 0 {
        return [];
      }
      var docs := response.documents[0];
      formatted := [];
      var i := 0;
      while i < |docs|
        invariant 0 <= i <= |docs| && |formatted| == i
        invariant i > 0 ==> |response.metadatas| > 0 && |response.distances| > 0
        invariant i > 0 ==> i <= |response.metadatas[0]| && i <= |response.distances[0]|
        invariant forall k :: 0 <= k < i ==>
          formatted[k] == SearchResult(docs[k], response.metadatas[0][k], 1.0 - response.distances[0][k])
      {
        if |response.metadatas| == 0 || i >= |response.metadatas[0]|
           || |response.distances| == 0 || i >= |response.distances[0]| {
          // the subscript raises IndexError, which the handler turns into []
          return [];
        }
        formatted := formatted + [SearchResult(docs[i], response.metadatas[0][i], 1.0 - response.distances[0][i])];
        i := i + 1;
      }
    }
  }

  lemma AppendEntry(built: seq<Entry>, es: seq<Entry>, e: Entry)
    ensures built + es + [e] == built + (es + [e])
  {
  }

  lemma BuildEntriesStep(docs: seq<Document>, d: nat)
    requires d < |docs|
    ensures BuildEntries(docs[..d + 1]) == BuildEntries(docs[..d]) + DocumentEntries(docs[d])
  {
    assert docs[..d + 1][..d] == docs[..d];
  }

  lemma ChunkEntriesStep(doc: Document, chunks: seq<string>, i: nat)
    requires i < |chunks|
    ensures ChunkEntries(doc, chunks[..i + 1])
      == ChunkEntries(doc, chunks[..i]) + (if Strip(chunks[i]) == "" then [] else [EntryFor(doc, chunks[i], i)])
  {
    assert chunks[..i + 1][..i] == chunks[..i];
  }

  /** Every entry of a document's chunks is built from a non-blank chunk at its position. */
  lemma {:induction false} ChunkEntriesSound(doc: Document, chunks: seq<string>)
    ensures forall e :: e in ChunkEntries(doc, chunks) ==>
      exists j :: 0 <= j < |chunks| && !AllSpace(chunks[j]) && e == EntryFor(doc, chunks[j], j)
    decreases |chunks|
  {
    if chunks != [] {
      var n := |chunks| - 1;
      var init := chunks[..n];
      ChunkEntriesSound(doc, init);
      var before := ChunkEntries(doc, init);
      forall e | e in ChunkEntries(doc, chunks)
        ensures exists j :: 0 <= j < |chunks| && !AllSpace(chunks[j]) && e == EntryFor(doc, chunks[j], j)
      {
        if e in before {
          var j :| 0 <= j < |init| && !AllSpace(init[j]) && e == EntryFor(doc, init[j], j);
          assert chunks[j] == init[j];
        } else {
          assert e == EntryFor(doc, chunks[n], n);
        }
      }
    }
  }

  /** Every non-blank chunk yields the entry built from it at its position. */
  lemma {:induction false} ChunkEntriesComplete(doc: Document, chunks: seq<string>)
    ensures forall j :: 0 <= j < |chunks| && !AllSpace(chunks[j]) ==>
      EntryFor(doc, chunks[j], j) in ChunkEntries(doc, chunks)
    decreases |chunks|
  {
    if chunks != [] {
      var n := |chunks| - 1;
      var init := chunks[..n];
      ChunkEntriesComplete(doc, init);
      forall j | 0 <= j < |chunks| && !AllSpace(chunks[j])
        ensures EntryFor(doc, chunks[j], j) in ChunkEntries(doc, chunks)
      {
        if j < n {
          assert init[j] == chunks[j];
        }
      }
    }
  }

  /** The entries of a document's chunks come in strictly increasing chunk order. */
  lemma {:induction false} ChunkEntriesOrdered(doc: Document, chunks: seq<string>)
    ensures forall a, b :: 0 <= a < b < |ChunkEntries(doc, chunks)| ==>
      ChunkIndex(ChunkEntries(doc, chunks)[a]) < ChunkIndex(ChunkEntries(doc, chunks)[b])
    decreases |chunks|
  {
    if chunks != [] {
      var n := |chunks| - 1;
      var init := chunks[..n];
      ChunkEntriesOrdered(doc, init);
      ChunkEntriesSound(doc, init);
      var before := ChunkEntries(doc, init);
      var es := ChunkEntries(doc, chunks);
      forall a, b | 0 <= a < b < |es|
        ensures ChunkIndex(es[a]) < ChunkIndex(es[b])
      {
        assert es[a] == before[a] && es[a] in before;
        var j :| 0 <= j < |init| && !AllSpace(init[j]) && es[a] == EntryFor(doc, init[j], j);
        if b < |before| {
          assert es[b] == before[b];
        } else {
          assert es[b] == EntryFor(doc, chunks[n], n);
        }
      }
    }
  }

  /** Documents carrying an error contribute no entries: building from all is building from the rest. */
  lemma {:induction false} FailedDocumentsIgnored(docs: seq<Document>)
    ensures BuildEntries(docs) == BuildEntries(Succeeded(docs))
    decreases |docs|
  {
    if docs != [] {
      var n := |docs| - 1;
      var last := docs[n];
      FailedDocumentsIgnored(docs[..n]);
      var s := Succeeded(docs[..n]);
      assert BuildEntries(docs) == BuildEntries(docs[..n]) + DocumentEntries(last);
      if last.error.None? {
        assert Succeeded(docs) == s + [last];
        assert (s + [last])[..|s|] == s;
        assert BuildEntries(s + [last]) == BuildEntries(s) + DocumentEntries(last);
      } else {
        assert DocumentEntries(last) == [];
        assert Succeeded(docs) == s;
      }
    }
  }

  /** A document yields no entries exactly when it failed or its content is whitespace only. */
  lemma DocumentEntriesEmptyIff(doc: Document)
    ensures DocumentEntries(doc) == [] <==> doc.error.Some? || AllSpace(doc.content.GetOr(""))
  {
    if doc.error.None? {
      var text := doc.content.GetOr("");
      var chunks := Chunking(text, ChunkSize, ChunkOverlap);
      ChunkEntriesSound(doc, chunks);
      ChunkEntriesComplete(doc, chunks);
      assert DocumentEntries(doc) == ChunkEntries(doc, chunks);
      if |text| <= ChunkSize {
        assert chunks == [text];
        if !AllSpace(text) {
          assert EntryFor(doc, chunks[0], 0) in DocumentEntries(doc);
        }
      } else {
        ChunkingEmptyIff(text, ChunkSize, ChunkOverlap);
        ChunksAreStrippedPieces(text, ChunkSize, ChunkOverlap);
        if chunks != [] {
          var c := chunks[0];
          assert c in chunks;
          assert !AllSpace(c);
          assert EntryFor(doc, chunks[0], 0) in DocumentEntries(doc);
        }
      }
    }
  }

  /** The batches cover the records exactly once, in order, each of 1 to `n` records, all full but the last. */
  lemma {:induction false} BatchesPartition<T>(s: seq<T>, n: nat)
    requires 1 <= n
    ensures Flatten(Batches(s, n)) == s
    ensures forall b :: b in Batches(s, n) ==> 1 <= |b| <= n
    ensures forall k :: 0 <= k < |Batches(s, n)| - 1 ==> |Batches(s, n)[k]| == n
    decreases |s|
  {
    if s != [] {
      var m := Min(n, |s|);
      BatchesPartition(s[m..], n);
      var bs := Batches(s, n);
      assert bs == [s[..m]] + Batches(s[m..], n);
      assert bs[1..] == Batches(s[m..], n);
      forall k | 0 <= k < |bs| - 1
        ensures |bs[k]| == n
      {
        if k > 0 {
          assert bs[k] == Batches(s[m..], n)[k - 1];
        } else {
          assert s[m..] != [];
        }
      }
    }
  }

  /** `search_similar` returns nothing exactly when the store's answer is unusable, else one result per document. */
  lemma SearchResultsShape(resp: QueryResponse)
    ensures SearchResults(resp) == [] <==> !Answered(resp)
    ensures Answered(resp) ==> |SearchResults(resp)| == |resp.documents[0]|
    ensures Answered(resp) ==> forall k :: 0 <= k < |resp.documents[0]| ==>
      SearchResults(resp)[k].content == resp.documents[0][k]
      && SearchResults(resp)[k].metadata == resp.metadatas[0][k]
      && SearchResults(resp)[k].similarity + resp.distances[0][k] == 1.0
  {
  }

  /** Results ranked nearest first come out ranked most similar first. */
  lemma SimilarityFollowsDistance(resp: QueryResponse)
    requires Answered(resp)
    requires forall a, b :: 0 <= a < b < |resp.distances[0]| ==> resp.distances[0][a] <= resp.distances[0][b]
    ensures forall a, b :: 0 <= a < b < |SearchResults(resp)| ==>
      SearchResults(resp)[a].similarity >= SearchResults(resp)[b].similarity
  {
  }
}
