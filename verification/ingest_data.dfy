/** The ingestion script's `main`: the first split document's text seeds the vector
    index, and the remaining ones are added in slices of 20. Loading, splitting,
    embedding, the pause between batches and saving the index are outside the
    model; the split documents are the input. */
module IngestData {

  /** The FAISS index, seen through the documents it holds, in the order they
      were added. */
  class VectorStore<D> {
    var documents: seq<D>

    /** `FAISS.from_embeddings` on one document. */
    constructor FromFirst(first: D)
      ensures documents == [first]
    {
      documents := [first];
    }

    /** `index.add_documents(batch)` */
    method AddDocuments(batch: seq<D>)
      modifies this
      ensures documents == old(documents) + batch
    {
      documents := documents + batch;
    }
  }

  /** A split document: its text and its metadata (the loader sets "source"). */
  datatype Document = Document(pageContent: string, metadata: map<string, string>)

  /** What `FAISS.from_embeddings` stores for a document given only as its
      text: the same text, with empty metadata. */
  function TextOnly(d: Document): Document
  {
    Document(d.pageContent, map[])
  }

  const BatchSize: nat := 20

  function Min(a: int, b: int): int
  {
    if a <= b then a else b
  }

  /** The slices `docs[i:i + 20]` for `i` in `range(start, len(docs), 20)`. */
  function Batches<D>(docs: seq<D>, start: nat): seq<seq<D>>
    decreases |docs| - start
  {
    if start >= |docs| then []
    else [docs[start..Min(start + BatchSize, |docs|)]] + Batches(docs, start + BatchSize)
  }

  /** The progress line printed for each batch: its number `i // 20 + 1` and
      its size. */
  datatype BatchReport = BatchReport(number: nat, size: nat)

  function Reports<D>(docs: seq<D>, start: nat): seq<BatchReport>
    decreases |docs| - start
  {
    if start >= |docs| then []
    else [BatchReport(start / BatchSize + 1, Min(start + BatchSize, |docs|) - start)] + Reports(docs, start + BatchSize)
  }

  /** How `main` ends: `docs[0]` raises when there is no document at all. */
  datatype IngestOutcome = NoDocuments | Indexed(store: VectorStore<Document>)

  /** `main` from the split documents on: seed with the text of `docs[0]`
      alone, then add the remaining documents, metadata included, in batches
      in order, reporting each. */
  method Ingest(docs: seq<Document>) returns (outcome: IngestOutcome, progress: seq<BatchReport>, ghost batches: seq<seq<Document>>)
    ensures docs == [] <==> outcome == NoDocuments
    ensures docs == [] ==> progress == [] && batches == []
    ensures outcome.Indexed? ==> fresh(outcome.store) && outcome.store.documents == [TextOnly(docs[0])] + docs[1..]
    ensures docs != [] ==> progress == Reports(docs, 1) && batches == Batches(docs, 1)
  {
    if docs == [] {
      return NoDocuments, [], [];
    }
    var index := new VectorStore.FromFirst(TextOnly(docs[0]));
    progress, batches := [], [];
    var i := 1;
    while i < |docs|
      invariant 1 <= i
      invariant index.documents == [TextOnly(docs[0])] + docs[1..Min(i, |docs|)]
      invariant progress + Reports(docs, i) == Reports(docs, 1)
      invariant batches + Batches(docs, i) == Batches(docs, 1)
      decreases |docs| - i
    {
      var end := Min(i + BatchSize, |docs|);
      var batch := docs[i..end];
      var report := BatchReport(i / BatchSize + 1, |batch|);
      assert Reports(docs, i) == [report] + Reports(docs, i + BatchSize);
      assert Batches(docs, i) == [batch] + Batches(docs, i + BatchSize);
      assert (progress + [report]) + Reports(docs, i + BatchSize) == progress + Reports(docs, i);
      assert (batches + [batch]) + Batches(docs, i + BatchSize) == batches + Batches(docs, i);
      assert docs[1..i] + batch == docs[1..end];
      progress := progress + [report];
      index.AddDocuments(batch);
      batches := batches + [batch];
      i := i + BatchSize;
    }
    outcome := Indexed(index);
  }

  function Flatten<D>(batches: seq<seq<D>>): seq<D>
  {
    if batches == [] then [] else batches[0] + Flatten(batches[1..])
  }

  /** The batches cover `docs[start:]` exactly: in order, without overlap and
      without gap; with the seed built from `docs[0]` every document is indexed once. */
  lemma {:induction false} BatchesPartition<D>(docs: seq<D>, start: nat)
    requires start <= |docs|
    ensures Flatten(Batches(docs, start)) == docs[start..]
    decreases |docs| - start
  {
    if start < |docs| {
      var end := Min(start + BatchSize, |docs|);
      var rest := Batches(docs, start + BatchSize);
      assert Batches(docs, start)[1..] == rest;
      if end < |docs| {
        BatchesPartition(docs, end);
      } else {
        assert rest == [];
      }
      assert docs[start..end] + docs[end..] == docs[start..];
    }
  }

  /** The `k`-th batch starts at `start + 20 k`; every batch has between 1 and
      20 documents, and all but the last have exactly 20. */
  lemma {:induction false} BatchShape<D>(docs: seq<D>, start: nat, k: nat)
    requires k < |Batches(docs, start)|
    ensures var s := start + BatchSize * k;
      && s < |docs|
      && Batches(docs, start)[k] == docs[s..Min(s + BatchSize, |docs|)]
      && 1 <= |Batches(docs, start)[k]| <= BatchSize
      && (k < |Batches(docs, start)| - 1 ==> |Batches(docs, start)[k]| == BatchSize)
    decreases |docs| - start
  {
    var b := Batches(docs, start);
    if k > 0 {
      BatchShape(docs, start + BatchSize, k - 1);
      assert b[k] == Batches(docs, start + BatchSize)[k - 1];
    } else if k < |b| - 1 {
      assert start + BatchSize < |docs|;
    }
  }

  /** There are ceil((len(docs) - start) / 20) batches; for the loop's start 1
      that is ceil((len(docs) - 1) / 20). */
  lemma {:induction false} BatchCount<D>(docs: seq<D>, start: nat)
    requires start <= |docs|
    ensures |Batches(docs, start)| == (|docs| - start + BatchSize - 1) / BatchSize
    decreases |docs| - start
  {
    if start < |docs| && start + BatchSize <= |docs| {
      BatchCount(docs, start + BatchSize);
    }
  }

  /** The reported batch numbers run 1, 2, 3, ... and each report gives the
      size of the batch it announces. */
  lemma {:induction false} ReportsNumbered<D>(docs: seq<D>, start: nat, k: nat)
    requires start % BatchSize == 1
    requires k < |Reports(docs, start)|
    ensures |Reports(docs, start)| == |Batches(docs, start)|
    ensures Reports(docs, start)[k] == BatchReport(start / BatchSize + k + 1, |Batches(docs, start)[k]|)
    decreases |docs| - start
  {
    if k > 0 {
      ReportsNumbered(docs, start + BatchSize, k - 1);
      assert (start + BatchSize) / BatchSize == start / BatchSize + 1;
    } else {
      if start + BatchSize < |docs| {
        ReportsNumbered(docs, start + BatchSize, 0);
      } else {
        assert Reports(docs, start + BatchSize) == [] && Batches(docs, start + BatchSize) == [];
      }
    }
  }
}
