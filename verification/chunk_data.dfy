/** The chunking script: `load_documents` reads the ".txt" files of a
    directory into a dictionary, and `chunk_documents` turns every non-blank
    document into records {text, source, id}, one per piece the text
    splitter returns. The directory listing and the file reads are inputs;
    the splitter is a function of the text. */
module ChunkData {
  import opened Wrappers
  import opened PyText

  /** One name of the directory listing, with the text read from it, or None
      when opening or reading it raised. */
  datatype DirEntry = DirEntry(name: string, content: Option<string>)

  /** The directory argument of `load_documents`: a path that does not exist,
      a path that exists but cannot be listed (a plain file, or listing is not
      permitted), or a directory with its listing. */
  datatype Directory = Missing | Unlistable | Listing(entries: seq<DirEntry>)

  /** One item of the documents dictionary: file name and file text. */
  datatype Document = Document(source: string, text: string)

  /** One output record. */
  datatype ChunkRecord = ChunkRecord(text: string, source: string, id: string)

  const TxtSuffix: string := ".txt"
  const ChunkInfix: string := "_chunk_"

  // ---------------------------------------------------------------------------
  // The documents dictionary, as its items in insertion order

  function Keys(items: seq<Document>): set<string>
  {
    set d | d in items :: d.source
  }

  predicate DistinctKeys(items: seq<Document>)
  {
    forall i, j :: 0 <= i < j < |items| ==> items[i].source != items[j].source
  }

  /** `documents[key] = value`: a key already present keeps its place and takes
      the new value; a new key is added last. */
  function DictSet(items: seq<Document>, key: string, value: string): (r: seq<Document>)
    ensures key !in Keys(items) ==> r == items + [Document(key, value)]
  {
    if items == [] then [Document(key, value)]
    else if items[0].source == key then [Document(key, value)] + items[1..]
    else
      assert items[0] in items;
      assert Keys(items[1..]) <= Keys(items) by {
        forall d | d in items[1..] ensures d in items { }
      }
      assert items == [items[0]] + items[1..];
      [items[0]] + DictSet(items[1..], key, value)
  }

  /** After `documents[key] = value` the keys are the old ones and `key`, and
      every item under another key is an old item. */
  lemma {:induction false} DictSetKeys(items: seq<Document>, key: string, value: string)
    ensures var r := DictSet(items, key, value);
      && Keys(r) == Keys(items) + {key}
      && (forall d :: d in r && d.source != key ==> d in items)
  {
    if items != [] {
      var head, tail := items[0], items[1..];
      assert items == [head] + tail;
      assert Keys(items) == {head.source} + Keys(tail);
      if head.source != key {
        DictSetKeys(tail, key, value);
        assert Keys([head] + DictSet(tail, key, value)) == {head.source} + Keys(DictSet(tail, key, value));
      } else {
        assert Keys([Document(key, value)] + tail) == {key} + Keys(tail);
      }
    }
  }

  /** An item whose key is new can go in front of distinct items. */
  lemma ConsDistinct(head: Document, rest: seq<Document>)
    requires DistinctKeys(rest) && head.source !in Keys(rest)
    ensures DistinctKeys([head] + rest)
  {
    forall j | 0 < j < |[head] + rest| ensures ([head] + rest)[j].source != head.source {
      assert ([head] + rest)[j] == rest[j - 1];
      assert rest[j - 1] in rest;
    }
  }

  /** With distinct keys, `documents[key] = value` keeps them distinct, and
      the one item under `key` holds `value`. */
  lemma {:induction false} DictSetDistinct(items: seq<Document>, key: string, value: string)
    requires DistinctKeys(items)
    ensures var r := DictSet(items, key, value);
      && DistinctKeys(r)
      && (forall d :: d in r && d.source == key ==> d.text == value)
  {
    if items != [] {
      var head, tail := items[0], items[1..];
      assert items == [head] + tail;
      assert DistinctKeys(tail);
      assert head.source !in Keys(tail) by {
        forall d | d in tail ensures d.source != head.source {
          var j :| 0 <= j < |tail| && tail[j] == d;
          assert items[j + 1] == d;
        }
      }
      if head.source != key {
        DictSetDistinct(tail, key, value);
        DictSetKeys(tail, key, value);
        ConsDistinct(head, DictSet(tail, key, value));
      } else {
        ConsDistinct(Document(key, value), tail);
      }
    }
  }

  // ---------------------------------------------------------------------------
  // load_documents

  /** `load_documents` stores an entry when its name ends with ".txt" and it
      could be read. */
  predicate IsLoaded(entry: DirEntry)
  {
    EndsWith(entry.name, TxtSuffix) && entry.content.Some?
  }

  /** The dictionary after the listing loop has seen `entries`. */
  function LoadedFrom(entries: seq<DirEntry>): seq<Document>
  {
    if entries == [] then []
    else
      var documents := LoadedFrom(entries[..|entries| - 1]);
      var entry := entries[|entries| - 1];
      if IsLoaded(entry) then DictSet(documents, entry.name, entry.content.value)
      else documents
  }

  /** The dictionary `load_documents` returns, or None when `os.listdir`
      raises, which escapes the function. */
  function Loaded(directory: Directory): Option<seq<Document>>
  {
    match directory
    case Missing => Some([])
    case Unlistable => None
    case Listing(entries) => Some(LoadedFrom(entries))
  }

  /** The keys are exactly the names of the readable ".txt" entries, each
      once, and each text was read from a file of that name. */
  lemma {:induction false} LoadedKeys(entries: seq<DirEntry>)
    ensures Keys(LoadedFrom(entries)) == set e | e in entries && IsLoaded(e) :: e.name
    ensures DistinctKeys(LoadedFrom(entries))
    ensures forall d :: d in LoadedFrom(entries) ==> DirEntry(d.source, Some(d.text)) in entries
  {
    if entries != [] {
      var init := entries[..|entries| - 1];
      var last := entries[|entries| - 1];
      LoadedKeys(init);
      if IsLoaded(last) {
        DictSetKeys(LoadedFrom(init), last.name, last.content.value);
        DictSetDistinct(LoadedFrom(init), last.name, last.content.value);
      }
      assert entries == init + [last];
      assert (set e | e in entries && IsLoaded(e) :: e.name) ==
        (set e | e in init && IsLoaded(e) :: e.name) + (if IsLoaded(last) then {last.name} else {});
    }
  }

  /** `load_documents`: a missing directory gives an empty dictionary; a path
      that cannot be listed raises (None); otherwise every listed name ending
      in ".txt" whose file can be read is stored under that name, and a file
      that cannot be read is skipped. */
  method LoadDocuments(directory: Directory) returns (result: Option<seq<Document>>)
    ensures result == Loaded(directory)
    ensures directory.Missing? ==> result == Some([])
    ensures result.None? <==> directory.Unlistable?
    ensures result.Some? ==> DistinctKeys(result.value)
    ensures result.Some? ==> forall d :: d in result.value ==> EndsWith(d.source, TxtSuffix)
  {
    var documents := [];
    if directory.Missing? {
      return Some(documents);
    }
    if directory.Unlistable? {
      return None;
    }
    var entries := directory.entries;
    for i := 0 to |entries|
      invariant documents == LoadedFrom(entries[..i])
    {
      var entry := entries[i];
      if EndsWith(entry.name, TxtSuffix) {
        match entry.content
        case Some(text) =>
          documents := DictSet(documents, entry.name, text);
        case None =>
      }
      assert entries[..i + 1][..i] == entries[..i];
    }
    assert entries[..|entries|] == entries;
    LoadedKeys(entries);
    forall d | d in documents ensures EndsWith(d.source, TxtSuffix) {
      assert d.source in Keys(documents);
    }
    result := Some(documents);
  }

  /** The readable ".txt" entries, in listing order. */
  function ReadableTexts(entries: seq<DirEntry>): seq<Document>
  {
    if entries == [] then []
    else
      var entry := entries[|entries| - 1];
      ReadableTexts(entries[..|entries| - 1]) +
        if IsLoaded(entry) then [Document(entry.name, entry.content.value)] else []
  }

  /** A directory lists every name once, so the dictionary holds the readable
      ".txt" files in listing order, and that is the order `chunk_documents`
      visits them in. */
  lemma {:induction false} LoadedInListingOrder(entries: seq<DirEntry>)
    requires forall i, j :: 0 <= i < j < |entries| ==> entries[i].name != entries[j].name
    ensures LoadedFrom(entries) == ReadableTexts(entries)
  {
    if entries != [] {
      var init := entries[..|entries| - 1];
      var last := entries[|entries| - 1];
      LoadedInListingOrder(init);
      LoadedKeys(init);
      if IsLoaded(last) {
        assert last.name !in Keys(LoadedFrom(init));
      }
    }
  }

  // ---------------------------------------------------------------------------
  // chunk_documents

  /** `f"{source.split('.')[0]}_chunk_{i}"` */
  function ChunkId(source: string, i: nat): string
  {
    BeforeFirstDot(source) + ChunkInfix + DecimalString(i)
  }

  /** The records of one document's pieces, numbered from 0 in splitter order. */
  function SourceRecords(source: string, pieces: seq<string>): seq<ChunkRecord>
  {
    seq(|pieces|, i requires 0 <= i < |pieces| => ChunkRecord(pieces[i], source, ChunkId(source, i)))
  }

  /** A document whose stripped text is empty contributes nothing. */
  function DocumentRecords(doc: Document, split: string -> seq<string>): seq<ChunkRecord>
  {
    if Strip(doc.text) == "" then [] else SourceRecords(doc.source, split(doc.text))
  }

  /** The blocks of `items`, one after another, in order. */
  function Blocks<T, R>(items: seq<T>, block: T -> seq<R>): seq<R>
  {
    if items == [] then []
    else Blocks(items[..|items| - 1], block) + block(items[|items| - 1])
  }

  /** The records of all documents, in dictionary order. */
  function Records(documents: seq<Document>, split: string -> seq<string>): seq<ChunkRecord>
  {
    Blocks(documents, doc => DocumentRecords(doc, split))
  }

  lemma {:induction false} BlocksAppend<T, R>(a: seq<T>, b: seq<T>, block: T -> seq<R>)
    ensures Blocks(a + b, block) == Blocks(a, block) + Blocks(b, block)
    decreases |b|
  {
    if b == [] {
      assert a + b == a;
    } else {
      assert (a + b)[..|a + b| - 1] == a + b[..|b| - 1];
      BlocksAppend(a, b[..|b| - 1], block);
    }
  }

  lemma BlocksExtend<T, R>(items: seq<T>, block: T -> seq<R>, d: nat)
    requires d < |items|
    ensures Blocks(items[..d + 1], block) == Blocks(items[..d], block) + block(items[d])
  {
    assert items[..d + 1][..d] == items[..d];
  }

  lemma SourceRecordsExtend(source: string, pieces: seq<string>, i: nat)
    requires i < |pieces|
    ensures SourceRecords(source, pieces[..i + 1]) ==
      SourceRecords(source, pieces[..i]) + [ChunkRecord(pieces[i], source, ChunkId(source, i))]
  {
  }

  lemma RecordsExtend(documents: seq<Document>, split: string -> seq<string>, d: nat)
    requires d < |documents|
    ensures Records(documents[..d + 1], split) ==
      Records(documents[..d], split) + DocumentRecords(documents[d], split)
  {
    BlocksExtend(documents, doc => DocumentRecords(doc, split), d);
  }

  /** `chunk_documents`; `split` is the text splitter configured with the
      chunk size and overlap. */
  method ChunkDocuments(documents: seq<Document>, split: string -> seq<string>)
    returns (allChunks: seq<ChunkRecord>)
    ensures allChunks == Records(documents, split)
  {
    allChunks := [];
    for d := 0 to |documents|
      invariant allChunks == Records(documents[..d], split)
    {
      var source, text := documents[d].source, documents[d].text;
      RecordsExtend(documents, split, d);
      if Strip(text) != "" {
        var chunks := split(text);
        for i := 0 to |chunks|
          invariant allChunks == Records(documents[..d], split) + SourceRecords(source, chunks[..i])
        {
          allChunks := allChunks + [ChunkRecord(chunks[i], source, ChunkId(source, i))];
          SourceRecordsExtend(source, chunks, i);
        }
        assert chunks[..|chunks|] == chunks;
      }
    }
    assert documents[..|documents|] == documents;
  }

  lemma RecordsAppend(a: seq<Document>, b: seq<Document>, split: string -> seq<string>)
    ensures Records(a + b, split) == Records(a, split) + Records(b, split)
  {
    BlocksAppend(a, b, doc => DocumentRecords(doc, split));
  }

  lemma {:induction false} RecordsSplit(documents: seq<Document>, split: string -> seq<string>, m: nat)
    requires m <= |documents|
    ensures Records(documents, split) == Records(documents[..m], split) + Records(documents[m..], split)
  {
    assert documents[..m] + documents[m..] == documents;
    RecordsAppend(documents[..m], documents[m..], split);
  }

  /** A document that is empty or only whitespace adds no records wherever it
      stands. */
  lemma {:induction false} BlankDocumentSkipped(a: seq<Document>, doc: Document, b: seq<Document>, split: string -> seq<string>)
    requires IsBlank(doc.text)
    ensures Records(a + [doc] + b, split) == Records(a + b, split)
  {
    StripEmptyIffBlank(doc.text);
    assert DocumentRecords(doc, split) == [];
    assert Records([doc], split) == [] by {
      RecordsExtend([doc], split, 0);
      assert [doc][..1] == [doc] && [doc][..0] == [];
    }
    RecordsAppend(a + [doc], b, split);
    RecordsAppend(a, [doc], split);
    RecordsAppend(a, b, split);
  }

  /** The number of pieces over the non-blank documents. */
  function PieceCount(documents: seq<Document>, split: string -> seq<string>): nat
  {
    if documents == [] then 0
    else
      var doc := documents[|documents| - 1];
      PieceCount(documents[..|documents| - 1], split) + if IsBlank(doc.text) then 0 else |split(doc.text)|
  }

  lemma {:induction false} RecordCount(documents: seq<Document>, split: string -> seq<string>)
    ensures |Records(documents, split)| == PieceCount(documents, split)
  {
    if documents != [] {
      StripEmptyIffBlank(documents[|documents| - 1].text);
      RecordCount(documents[..|documents| - 1], split);
    }
  }

  /** A blank document gives no record; any other gives one record per piece,
      in splitter order, holding the piece, the file name unchanged and the id
      numbered from 0. */
  lemma DocumentBlock(doc: Document, split: string -> seq<string>)
    ensures IsBlank(doc.text) ==> DocumentRecords(doc, split) == []
    ensures !IsBlank(doc.text) ==>
      var pieces, block := split(doc.text), DocumentRecords(doc, split);
      && |block| == |pieces|
      && forall i :: 0 <= i < |block| ==> block[i] == ChunkRecord(pieces[i], doc.source, ChunkId(doc.source, i))
  {
    StripEmptyIffBlank(doc.text);
  }

  /** The records of document `k` form one contiguous block, right after those
      of the documents before it. */
  lemma {:induction false} RecordPlacement(documents: seq<Document>, split: string -> seq<string>, k: nat)
    requires k < |documents|
    ensures var all, start, block := Records(documents, split), PieceCount(documents[..k], split), DocumentRecords(documents[k], split);
      && start + |block| <= |all|
      && all[start..start + |block|] == block
  {
    var before, block, after := Records(documents[..k], split), DocumentRecords(documents[k], split), Records(documents[k + 1..], split);
    assert Records(documents, split) == before + block + after by {
      RecordsSplit(documents, split, k + 1);
      RecordsExtend(documents, split, k);
    }
    RecordCount(documents[..k], split);
    MiddleSlice(Records(documents, split), before, block, after);
  }

  lemma MiddleSlice<T>(all: seq<T>, a: seq<T>, b: seq<T>, c: seq<T>)
    requires all == a + b + c
    ensures |a| + |b| <= |all| && all[|a|..|a| + |b|] == b
  {
  }

  // ---------------------------------------------------------------------------
  // Chunk ids

  /** When two strings end in a separator followed by separator-free tails,
      equal strings have equal heads and tails. */
  lemma SplitAtLastSeparator(h1: string, t1: string, h2: string, t2: string, sep: char)
    requires sep !in t1 && sep !in t2
    requires h1 + [sep] + t1 == h2 + [sep] + t2
    ensures h1 == h2 && t1 == t2
  {
    var x := h1 + [sep] + t1;
    assert x == h2 + [sep] + t2;
    // the separator before each tail lies outside the other tail
    assert forall p :: |x| - |t2| <= p < |x| ==> x[p] == t2[p - (|x| - |t2|)] && x[p] != sep;
    assert forall p :: |x| - |t1| <= p < |x| ==> x[p] == t1[p - (|x| - |t1|)] && x[p] != sep;
    assert x[|x| - |t1| - 1] == sep && x[|x| - |t2| - 1] == sep;
    assert |t1| == |t2|;
    assert t1 == x[|x| - |t1|..] == t2;
    assert h1 == x[..|h1|] == h2;
  }

  /** Two chunk ids are equal exactly when their sources agree up to the first
      '.' and their piece numbers are equal: ids never repeat within a source. */
  lemma ChunkIdsEqual(s1: string, i: nat, s2: string, j: nat)
    ensures ChunkId(s1, i) == ChunkId(s2, j) <==> BeforeFirstDot(s1) == BeforeFirstDot(s2) && i == j
  {
    if ChunkId(s1, i) == ChunkId(s2, j) {
      var d1, d2 := DecimalString(i), DecimalString(j);
      assert '_' !in d1 && '_' !in d2;
      var h1 := BeforeFirstDot(s1) + "_chunk";
      var h2 := BeforeFirstDot(s2) + "_chunk";
      assert ChunkId(s1, i) == h1 + ['_'] + d1;
      assert ChunkId(s2, j) == h2 + ['_'] + d2;
      SplitAtLastSeparator(h1, d1, h2, d2, '_');
      assert BeforeFirstDot(s1) == h1[..|h1| - 6] == BeforeFirstDot(s2);
      DecimalStringInjective(i, j);
    }
  }

  lemma ChunkIdsDiffer(s1: string, i: nat, s2: string, j: nat)
    requires BeforeFirstDot(s1) != BeforeFirstDot(s2) || i != j
    ensures ChunkId(s1, i) != ChunkId(s2, j)
  {
    ChunkIdsEqual(s1, i, s2, j);
  }

  /** The "unique" ids are not unique across files: two versions of one
      document get the same ids. */
  lemma ChunkIdsCollideAcrossVersions()
    ensures "a.v1.txt" != "a.v2.txt"
    ensures ChunkId("a.v1.txt", 0) == ChunkId("a.v2.txt", 0) == "a_chunk_0"
  {
  }

  /** Which document, and which of its pieces, record `p` comes from. */
  function Origin(documents: seq<Document>, split: string -> seq<string>, p: nat): (o: (nat, nat))
    requires p < |Records(documents, split)|
    ensures o.0 < |documents|
    ensures Records(documents, split)[p].id == ChunkId(documents[o.0].source, o.1)
  {
    var n := |documents| - 1;
    var before := Records(documents[..n], split);
    if p < |before| then
      var o := Origin(documents[..n], split, p);
      assert documents[..n][o.0] == documents[o.0];
      o
    else (n, p - |before|)
  }

  /** No two records share an id. */
  predicate UniqueIds(records: seq<ChunkRecord>)
  {
    forall p, q :: 0 <= p < q < |records| ==> records[p].id != records[q].id
  }

  /** No record of `a` shares an id with a record of `b`. */
  predicate IdsApart(a: seq<ChunkRecord>, b: seq<ChunkRecord>)
  {
    forall p, q :: 0 <= p < |a| && 0 <= q < |b| ==> a[p].id != b[q].id
  }

  lemma UniqueIdsConcat(a: seq<ChunkRecord>, b: seq<ChunkRecord>)
    requires UniqueIds(a) && UniqueIds(b) && IdsApart(a, b)
    ensures UniqueIds(a + b)
  {
    forall p, q | 0 <= p < q < |a + b| ensures (a + b)[p].id != (a + b)[q].id {
      if q < |a| {
        assert (a + b)[p] == a[p] && (a + b)[q] == a[q];
      } else if p < |a| {
        assert (a + b)[p] == a[p] && (a + b)[q] == b[q - |a|];
      } else {
        assert (a + b)[p] == b[p - |a|] && (a + b)[q] == b[q - |a|];
      }
    }
  }

  /** Within one document the ids are numbered apart. */
  lemma BlockIdsDistinct(doc: Document, split: string -> seq<string>)
    ensures UniqueIds(DocumentRecords(doc, split))
  {
    var block := DocumentRecords(doc, split);
    DocumentBlock(doc, split);
    forall i, j | 0 <= i < j < |block| ensures block[i].id != block[j].id {
      ChunkIdsDiffer(doc.source, i, doc.source, j);
    }
  }

  lemma {:induction false} IdsDistinctAcrossDocuments(
    earlier: seq<Document>, doc: Document, split: string -> seq<string>)
    requires forall k :: 0 <= k < |earlier| ==> BeforeFirstDot(earlier[k].source) != BeforeFirstDot(doc.source)
    ensures IdsApart(Records(earlier, split), DocumentRecords(doc, split))
  {
    var a, b := Records(earlier, split), DocumentRecords(doc, split);
    DocumentBlock(doc, split);
    forall p, q | 0 <= p < |a| && 0 <= q < |b| ensures a[p].id != b[q].id {
      var o := Origin(earlier, split, p);
      ChunkIdsDiffer(earlier[o.0].source, o.1, doc.source, q);
    }
  }

  /** When no two files agree up to their first '.', every record id is unique. */
  lemma {:induction false} RecordIdsUnique(documents: seq<Document>, split: string -> seq<string>)
    requires forall k, k' :: 0 <= k < k' < |documents| ==>
      BeforeFirstDot(documents[k].source) != BeforeFirstDot(documents[k'].source)
    ensures UniqueIds(Records(documents, split))
  {
    if documents != [] {
      var n := |documents| - 1;
      var init, last := documents[..n], documents[n];
      forall k, k' | 0 <= k < k' < |init|
        ensures BeforeFirstDot(init[k].source) != BeforeFirstDot(init[k'].source)
      {
        assert init[k] == documents[k] && init[k'] == documents[k'];
      }
      RecordIdsUnique(init, split);
      forall k | 0 <= k < |init|
        ensures BeforeFirstDot(init[k].source) != BeforeFirstDot(last.source)
      {
        assert init[k] == documents[k];
      }
      BlockIdsDistinct(last, split);
      IdsDistinctAcrossDocuments(init, last, split);
      UniqueIdsConcat(Records(init, split), DocumentRecords(last, split));
      RecordsExtend(documents, split, n);
      assert documents[..n + 1] == documents;
    }
  }

  /** Conversely, two files that agree up to their first '.' and each yield at
      least one piece collide: the first piece of each gets the same id. A
      blank file, or one the splitter turns into no pieces, yields no id at
      all, so it collides with nothing. */
  lemma RecordIdsCollide(documents: seq<Document>, split: string -> seq<string>, a: nat, b: nat)
    requires a < b < |documents|
    requires BeforeFirstDot(documents[a].source) == BeforeFirstDot(documents[b].source)
    requires !IsBlank(documents[a].text) && |split(documents[a].text)| >= 1
    requires !IsBlank(documents[b].text) && |split(documents[b].text)| >= 1
    ensures !UniqueIds(Records(documents, split))
  {
    var all, init := Records(documents, split), documents[..b];
    var p, q := PieceCount(documents[..a], split), PieceCount(init, split);
    assert init[..a] == documents[..a] && init[a] == documents[a];
    RecordPlacement(init, split, a);
    DocumentBlock(documents[a], split);
    RecordCount(init, split);
    RecordPlacement(documents, split, b);
    DocumentBlock(documents[b], split);
    RecordsSplit(documents, split, b);
    assert all[p] == Records(init, split)[p];
    ChunkIdsEqual(documents[a].source, 0, documents[b].source, 0);
    assert p < q && all[p].id == all[q].id;
  }
}
