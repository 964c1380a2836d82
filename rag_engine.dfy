/** The knowledge base of the clinical assistant (`ClinicalKnowledgeBase` in
    `src/rag_engine.py`): filename cleaning, ingestion of PDF pages into
    chunk records plus a vector index, and retrieval of a citation-tagged
    context. */
module RagEngine {
  import opened Wrappers
  import opened Text
  import opened Chunking
  import opened Guardrails
  import Config

  // ---------------------------------------------------------------------------
  // Entities
  // ---------------------------------------------------------------------------

  /** One stored record `{'text': ..., 'page': ..., 'source': ...}`. */
  datatype Chunk = Chunk(text: string, page: nat, source: string)

  /** An embedding row. The float32 arithmetic of the encoder and of the
      index is not modelled; a row is only carried along. */
  type Vector = seq<real>

  /** A flat L2 vector index: one row per stored chunk, in chunk order. */
  datatype VectorIndex = FlatL2(rows: seq<Vector>)

  /** A PDF as the reader presents it: the extracted text of each page
      (`None` where extraction yields nothing), and, when reading raises,
      the number of pages handed out before the exception. `failsAt == Some(0)`
      also covers a reader that cannot open the file at all. */
  datatype Document = Document(path: string, pages: seq<Option<string>>, failsAt: Option<nat>)

  const NO_TEXT_FOUND: string := "No relevant clinical text found in documents."

  /** Written in 15-character pieces, so the proof that the message holds no
      `[` deals with one small literal at a time (`Chat.GuardrailHasNoTag`). */
  const GUARDRAIL_MESSAGE: string :=
    "GUARDRAIL: This"
    + " query asks for"
    + " subjective com"
    + "parison. Please"
    + " ask for specif"
    + "ic guidelines."

  /** The pieces of the citation tag written in front of every retrieved chunk. */
  const TAG_OPEN: string := "[Source: '"
  const TAG_MID: string := "', Page: "
  const TAG_CLOSE: string := "]\n"

  const PART_SEPARATOR: string := "\n\n"

  // ---------------------------------------------------------------------------
  // Display filename
  // ---------------------------------------------------------------------------

  /** Where the basename starts: just after the last `/`, or at 0. */
  function NameStart(path: string): (k: nat)
    ensures k <= |path|
    ensures forall i :: k <= i < |path| ==> path[i] != '/'
    ensures k > 0 ==> path[k - 1] == '/'
  {
    if path == [] then 0
    else if path[|path| - 1] == '/' then |path|
    else
      var p := path[..|path| - 1];
      var k := NameStart(p);
      assert forall i :: k <= i < |p| ==> path[i] == p[i];
      k
  }

  /** `os.path.basename(path)` with `/` as the separator: the text after the
      last `/`. */
  function Basename(path: string): (name: string)
    ensures '/' !in name
    ensures |name| <= |path| && name == path[|path| - |name|..]
    ensures |name| < |path| ==> path[|path| - |name| - 1] == '/'
  {
    var k := NameStart(path);
    assert forall i :: 0 <= i < |path| - k ==> path[k..][i] == path[k + i];
    path[k..]
  }

  /** `s.split(c, 1)[1]` for an `s` that holds `c`: the text after the first `c`. */
  function AfterFirst(s: string, c: char): (r: string)
    requires c in s
    ensures exists k :: 0 <= k < |s| && s[k] == c && c !in s[..k] && r == s[k + 1..]
  {
    if s[0] == c then
      assert s[..0] == [];
      s[1..]
    else
      var r := AfterFirst(s[1..], c);
      var k :| 0 <= k < |s[1..]| && s[1..][k] == c && c !in s[1..][..k] && r == s[1..][k + 1..];
      assert s[..k + 1] == [s[0]] + s[1..][..k];
      r
  }

  /** The display name of an uploaded file: its basename without the
      temporary-file prefix, i.e. without everything up to and including the
      first `_`; a basename without `_` is kept whole. */
  function CleanFilename(path: string): (name: string)
    ensures var base := Basename(path);
      if '_' in base then
        exists k :: 0 <= k < |base| && base[k] == '_' && '_' !in base[..k] && name == base[k + 1..]
      else name == base
  {
    var base := Basename(path);
    if '_' in base then AfterFirst(base, '_') else base
  }

  lemma BasenameAfterSlash(dir: string, base: string)
    requires '/' !in base
    ensures Basename(dir + "/" + base) == base
  {
    var p := dir + "/" + base;
    var k := NameStart(p);
    assert p[|dir|] == '/';
    assert forall i :: |dir| < i < |p| ==> p[i] == base[i - |dir| - 1];
    assert k == |dir| + 1;
    assert p[k..] == base;
  }

  lemma {:induction false} AfterFirstOfPrefix(prefix: string, c: char, rest: string)
    requires c !in prefix
    ensures c in prefix + [c] + rest
    ensures AfterFirst(prefix + [c] + rest, c) == rest
  {
    var s := prefix + [c] + rest;
    assert s[|prefix|] == c;
    if prefix == [] {
      assert s == [c] + rest;
    } else {
      assert s[1..] == prefix[1..] + [c] + rest;
      AfterFirstOfPrefix(prefix[1..], c, rest);
    }
  }

  /** The temporary file `<dir>/<prefix>_<name>` of an upload named `name`
      is displayed as `name`, provided the prefix holds no `_`. */
  lemma CleanFilenameRecoversUpload(dir: string, prefix: string, name: string)
    requires '/' !in prefix && '/' !in name && '_' !in prefix
    ensures CleanFilename(dir + "/" + prefix + "_" + name) == name
  {
    var base := prefix + "_" + name;
    assert dir + "/" + prefix + "_" + name == dir + "/" + base;
    BasenameAfterSlash(dir, base);
    AfterFirstOfPrefix(prefix, '_', name);
  }

  /** A basename without `_` is displayed unchanged. */
  lemma CleanFilenameKeepsPlainName(dir: string, name: string)
    requires '/' !in name && '_' !in name
    ensures CleanFilename(dir + "/" + name) == name
  {
    BasenameAfterSlash(dir, name);
  }

  // ---------------------------------------------------------------------------
  // Ingestion, as a specification
  // ---------------------------------------------------------------------------

  /** `page.extract_text() or ""`. */
  function PageText(p: Option<string>): string {
    match p
    case None => ""
    case Some(t) => t
  }

  /** The records of one page's segments, in segment order. */
  function SegmentRecords(segments: seq<string>, page: nat, source: string): (recs: seq<Chunk>)
    ensures |recs| == |segments|
    ensures forall k :: 0 <= k < |recs| ==> recs[k] == Chunk(segments[k], page, source)
  {
    if segments == [] then []
    else SegmentRecords(segments[..|segments| - 1], page, source) + [Chunk(segments[|segments| - 1], page, source)]
  }

  /** The chunks of one page under the default window size and overlap. */
  function PageChunks(p: Option<string>): seq<string> {
    SlidingWindows(PageText(p), WINDOW_SIZE, OVERLAP)
  }

  /** `[f(x) for x in xs]`. */
  function Map<T, U>(xs: seq<T>, f: T -> U): (ys: seq<U>)
    ensures |ys| == |xs|
    ensures forall i :: 0 <= i < |xs| ==> ys[i] == f(xs[i])
  {
    if xs == [] then [] else Map(xs[..|xs| - 1], f) + [f(xs[|xs| - 1])]
  }

  /** The chunks of every page, page by page. */
  function ChunkLists(pages: seq<Option<string>>): seq<seq<string>> {
    Map(pages, PageChunks)
  }

  /** The records of consecutive pages, given each page's chunks; pages are
      numbered from 1. */
  function PagesRecords(lists: seq<seq<string>>, source: string): seq<Chunk> {
    if lists == [] then []
    else
      PagesRecords(lists[..|lists| - 1], source)
      + SegmentRecords(lists[|lists| - 1], |lists|, source)
  }

  /** The pages handed out before the reader raised, or all of them. */
  function ProcessedPages(d: Document): (pages: seq<Option<string>>)
    ensures |pages| <= |d.pages| && pages == d.pages[..|pages|]
    ensures d.failsAt.None? ==> pages == d.pages
    ensures d.failsAt.Some? ==> |pages| == Min(d.failsAt.value, |d.pages|)
  {
    match d.failsAt
    case None => d.pages
    case Some(k) => if k < |d.pages| then d.pages[..k] else d.pages
  }

  /** The records one document contributes. */
  function DocumentRecords(d: Document): seq<Chunk> {
    PagesRecords(ChunkLists(ProcessedPages(d)), CleanFilename(d.path))
  }

  /** The concatenation of `f(x)` over `xs`, in order. */
  function Flatten<T, U>(xs: seq<T>, f: T -> seq<U>): seq<U> {
    if xs == [] then [] else Flatten(xs[..|xs| - 1], f) + f(xs[|xs| - 1])
  }

  /** The records `load_and_process_pdfs(docs)` collects, in document order. */
  function IngestRecords(docs: seq<Document>): seq<Chunk> {
    if docs == [] then [] else IngestRecords(docs[..|docs| - 1]) + DocumentRecords(docs[|docs| - 1])
  }

  /** Ingestion is the flattening of the per-document records. */
  lemma {:induction false} IngestIsFlatten(docs: seq<Document>)
    ensures IngestRecords(docs) == Flatten(docs, DocumentRecords)
    decreases |docs|
  {
    if docs != [] {
      IngestIsFlatten(docs[..|docs| - 1]);
    }
  }

  /** One embedding row per record, in record order. */
  function Embeddings(recs: seq<Chunk>, embed: string -> Vector): seq<Vector>
  {
    seq(|recs|, k requires 0 <= k < |recs| => embed(recs[k].text))
  }

  // ---------------------------------------------------------------------------
  // Properties of ingestion
  // ---------------------------------------------------------------------------

  /** Ingesting two batches of documents gives the records of the first
      followed by those of the second: documents are processed in order and a
      failing document does not stop the ones after it. */
  lemma {:induction false} FlattenAppend<T, U>(xs: seq<T>, ys: seq<T>, f: T -> seq<U>)
    ensures Flatten(xs + ys, f) == Flatten(xs, f) + Flatten(ys, f)
    decreases |ys|
  {
    if ys == [] {
      assert xs + ys == xs;
    } else {
      var all := xs + ys;
      assert all[..|all| - 1] == xs + ys[..|ys| - 1];
      assert all[|all| - 1] == ys[|ys| - 1];
      FlattenAppend(xs, ys[..|ys| - 1], f);
    }
  }

  lemma IngestAppend(docs1: seq<Document>, docs2: seq<Document>)
    ensures IngestRecords(docs1 + docs2) == IngestRecords(docs1) + IngestRecords(docs2)
  {
    FlattenAppend(docs1, docs2, DocumentRecords);
    IngestIsFlatten(docs1 + docs2);
    IngestIsFlatten(docs1);
    IngestIsFlatten(docs2);
  }

  /** The records of a page prefix are a prefix of the records of all pages. */
  lemma {:induction false} PagesRecordsPrefix(lists: seq<seq<string>>, k: nat, source: string)
    requires k <= |lists|
    ensures var recs := PagesRecords(lists, source);
      var pre := PagesRecords(lists[..k], source);
      |pre| <= |recs| && recs[..|pre|] == pre
    decreases |lists|
  {
    if k < |lists| {
      var init := lists[..|lists| - 1];
      assert init[..k] == lists[..k];
      PagesRecordsPrefix(init, k, source);
    } else {
      assert lists[..k] == lists;
    }
  }

  /** The chunk lists of a page prefix are a prefix of the chunk lists. */
  lemma ChunkListsPrefix(pages: seq<Option<string>>, n: nat)
    requires n <= |pages|
    ensures ChunkLists(pages[..n]) == ChunkLists(pages)[..n]
  {
    var a, b := ChunkLists(pages[..n]), ChunkLists(pages)[..n];
    forall i | 0 <= i < n
      ensures a[i] == b[i]
    {
      assert pages[..n][i] == pages[i];
    }
  }

  /** A document whose reader raises contributes exactly the records of the
      pages read before the exception: a prefix of what it would contribute
      had it been read to the end. */
  lemma FailingDocumentKeepsPrefix(d: Document)
    ensures var whole := DocumentRecords(d.(failsAt := None));
      var part := DocumentRecords(d);
      |part| <= |whole| && whole[..|part|] == part
  {
    var pages := ProcessedPages(d);
    var lists := ChunkLists(d.pages);
    assert ProcessedPages(d.(failsAt := None)) == d.pages;
    assert ChunkLists(pages) == lists[..|pages|] by {
      ChunkListsPrefix(d.pages, |pages|);
    }
    PagesRecordsPrefix(lists, |pages|, CleanFilename(d.path));
  }

  /** Where a record of a run of pages comes from: a page it reached (numbered
      from 1) and one of that page's chunks, under the given display name. */
  predicate RecordOfPage(lists: seq<seq<string>>, source: string, c: Chunk) {
    1 <= c.page <= |lists| && c.source == source && c.text in lists[c.page - 1]
  }

  /** Every record of `recs` comes from one of the pages. */
  predicate RecordsOfPages(lists: seq<seq<string>>, source: string, recs: seq<Chunk>) {
    forall k :: 0 <= k < |recs| ==> RecordOfPage(lists, source, recs[k])
  }

  /** Page numbers never decrease along `recs`. */
  predicate PageOrdered(recs: seq<Chunk>) {
    forall k, l :: 0 <= k < l < |recs| ==> recs[k].page <= recs[l].page
  }

  /** Every record of a run of pages carries a 1-based page number of a page
      and one of that page's chunks, and page numbers never decrease. */
  lemma {:induction false} PagesRecordsShape(lists: seq<seq<string>>, source: string)
    ensures RecordsOfPages(lists, source, PagesRecords(lists, source))
    ensures PageOrdered(PagesRecords(lists, source))
  {
    if lists != [] {
      var init := lists[..|lists| - 1];
      PagesRecordsShape(init, source);
      var recs := PagesRecords(lists, source);
      var pre := PagesRecords(init, source);
      var segs := lists[|lists| - 1];
      var last := SegmentRecords(segs, |lists|, source);
      assert recs == pre + last;
      forall k | 0 <= k < |recs|
        ensures RecordOfPage(lists, source, recs[k])
      {
        if k < |pre| {
          assert recs[k] == pre[k];
          assert RecordOfPage(init, source, pre[k]);
          assert lists[recs[k].page - 1] == init[recs[k].page - 1];
        } else {
          assert recs[k] == last[k - |pre|];
          assert recs[k].text == segs[k - |pre|];
        }
      }
      forall k, l | 0 <= k < l < |recs|
        ensures recs[k].page <= recs[l].page
      {
        if l >= |pre| {
          assert recs[l] == last[l - |pre|];
          if k < |pre| {
            assert recs[k] == pre[k];
            assert RecordOfPage(init, source, pre[k]);
          } else {
            assert recs[k] == last[k - |pre|];
          }
        } else {
          assert recs[k] == pre[k] && recs[l] == pre[l];
        }
      }
    }
  }

  /** Where a record of some pages comes from: one of the pages (numbered
      from 1) and one of that page's chunks, under the given display name. */
  predicate ChunkOfPages(pages: seq<Option<string>>, source: string, c: Chunk) {
    1 <= c.page <= |pages| && c.source == source && c.text in PageChunks(pages[c.page - 1])
  }

  /** Where an ingested record comes from: a document, a page of it read
      before any exception (numbered from 1), and one of that page's chunks,
      under the document's display name. */
  ghost predicate RecordOfDocument(d: Document, c: Chunk) {
    ChunkOfPages(ProcessedPages(d), CleanFilename(d.path), c)
  }

  /** A chunk of a page has a chunk-sized text. */
  lemma PageChunkLength(p: Option<string>, t: string)
    requires t in PageChunks(p)
    ensures MIN_CHUNK_LENGTH < |t| <= WINDOW_SIZE
  {
    ChunkLengths(PageText(p), WINDOW_SIZE, OVERLAP);
  }

  /** A record of listed pages is a record of the pages themselves. */
  lemma RecordOfListedPage(pages: seq<Option<string>>, lists: seq<seq<string>>, source: string, c: Chunk)
    requires |lists| == |pages| && forall i :: 0 <= i < |pages| ==> lists[i] == PageChunks(pages[i])
    requires RecordOfPage(lists, source, c)
    ensures ChunkOfPages(pages, source, c) && MIN_CHUNK_LENGTH < |c.text| <= WINDOW_SIZE
  {
    PageChunkLength(pages[c.page - 1], c.text);
  }

  /** Record `k` of some pages comes from those pages and has a chunk-sized
      text. */
  lemma PagesRecordAt(pages: seq<Option<string>>, source: string, k: nat)
    requires k < |PagesRecords(ChunkLists(pages), source)|
    ensures ChunkOfPages(pages, source, PagesRecords(ChunkLists(pages), source)[k])
    ensures MIN_CHUNK_LENGTH < |PagesRecords(ChunkLists(pages), source)[k].text| <= WINDOW_SIZE
  {
    var lists := ChunkLists(pages);
    var recs := PagesRecords(lists, source);
    assert RecordOfPage(lists, source, recs[k]) by {
      PagesRecordsShape(lists, source);
    }
    RecordOfListedPage(pages, lists, source, recs[k]);
  }

  /** Record `k` of a document comes from that document and has a
      chunk-sized text. */
  lemma DocumentRecordAt(d: Document, k: nat)
    requires k < |DocumentRecords(d)|
    ensures RecordOfDocument(d, DocumentRecords(d)[k])
    ensures MIN_CHUNK_LENGTH < |DocumentRecords(d)[k].text| <= WINDOW_SIZE
  {
    PagesRecordAt(ProcessedPages(d), CleanFilename(d.path), k);
  }

  /** The records of one document each come from that document, have a
      chunk-sized text, and are in page order. */
  lemma DocumentRecordsShape(d: Document)
    ensures forall k :: 0 <= k < |DocumentRecords(d)| ==>
      RecordOfDocument(d, DocumentRecords(d)[k])
      && MIN_CHUNK_LENGTH < |DocumentRecords(d)[k].text| <= WINDOW_SIZE
    ensures PageOrdered(DocumentRecords(d))
  {
    PagesRecordsShape(ChunkLists(ProcessedPages(d)), CleanFilename(d.path));
    forall k | 0 <= k < |DocumentRecords(d)|
      ensures RecordOfDocument(d, DocumentRecords(d)[k])
        && MIN_CHUNK_LENGTH < |DocumentRecords(d)[k].text| <= WINDOW_SIZE
    {
      DocumentRecordAt(d, k);
    }
  }

  /** Element `k` of a flattening is element `i` of the image of some
      element `j`. */
  lemma {:induction false} FlattenAt<T, U>(xs: seq<T>, f: T -> seq<U>, k: nat) returns (j: nat, i: nat)
    requires k < |Flatten(xs, f)|
    ensures j < |xs| && i < |f(xs[j])| && Flatten(xs, f)[k] == f(xs[j])[i]
    decreases |xs|
  {
    var init := xs[..|xs| - 1];
    var pre := Flatten(init, f);
    if k < |pre| {
      j, i := FlattenAt(init, f, k);
      assert xs[j] == init[j];
    } else {
      j, i := |xs| - 1, k - |pre|;
    }
  }

  /** Every ingested record comes from one of the documents and has a
      chunk-sized text: longer than 50 and at most 1000 characters. */
  lemma IngestRecordsShape(docs: seq<Document>)
    ensures var recs := IngestRecords(docs);
      forall k :: 0 <= k < |recs| ==>
        (exists j :: 0 <= j < |docs| && RecordOfDocument(docs[j], recs[k]))
        && MIN_CHUNK_LENGTH < |recs[k].text| <= WINDOW_SIZE
  {
    var recs := IngestRecords(docs);
    forall k | 0 <= k < |recs|
      ensures (exists j :: 0 <= j < |docs| && RecordOfDocument(docs[j], recs[k]))
        && MIN_CHUNK_LENGTH < |recs[k].text| <= WINDOW_SIZE
    {
      IngestIsFlatten(docs);
      var j, i := FlattenAt(docs, DocumentRecords, k);
      DocumentRecordAt(docs[j], i);
    }
  }

  // ---------------------------------------------------------------------------
  // Search, as a specification
  // ---------------------------------------------------------------------------

  /** `f"[Source: '{item['source']}', Page: {item['page']}]\n{item['text']}"`. */
  function FormatChunk(c: Chunk): string {
    TAG_OPEN + c.source + TAG_MID + NatToString(c.page) + TAG_CLOSE + c.text
  }

  /** One formatted block per chunk, in order. */
  function FormatAll(cs: seq<Chunk>): seq<string>
  {
    seq(|cs|, k requires 0 <= k < |cs| => FormatChunk(cs[k]))
  }

  predicate NonNegative(ids: seq<int>) {
    forall k :: 0 <= k < |ids| ==> 0 <= ids[k]
  }

  /** Row ids as the vector index returns them for one query: at most
      `RETRIEVAL_K` of them, none negative. */
  predicate ValidHits(ids: seq<int>) {
    |ids| <= Config.RETRIEVAL_K && NonNegative(ids)
  }

  /** The chunks behind the ids that pass `idx < len(chunks)`, in id order. */
  function Hits(chunks: seq<Chunk>, ids: seq<int>): seq<Chunk>
    requires NonNegative(ids)
  {
    if ids == [] then []
    else
      var idx := ids[|ids| - 1];
      Hits(chunks, ids[..|ids| - 1]) + (if idx < |chunks| then [chunks[idx]] else [])
  }

  /** The context parts of `search`: one formatted block per passing id. */
  function ContextParts(chunks: seq<Chunk>, ids: seq<int>): seq<string>
    requires NonNegative(ids)
  {
    FormatAll(Hits(chunks, ids))
  }

  /** The context `search` returns once an index exists. */
  function SearchContext(chunks: seq<Chunk>, query: string, ids: seq<int>): string
    requires NonNegative(ids)
  {
    if IsUnsafeQuery(query) then GUARDRAIL_MESSAGE
    else Join(ContextParts(chunks, ids), PART_SEPARATOR)
  }

  /** With an index, the context is empty exactly when the query is safe and
      none of the returned ids passes the bound check. */
  lemma SearchContextEmpty(chunks: seq<Chunk>, query: string, ids: seq<int>)
    requires NonNegative(ids)
    ensures SearchContext(chunks, query, ids) == "" <==> !IsUnsafeQuery(query) && Hits(chunks, ids) == []
  {
    var parts := ContextParts(chunks, ids);
    if parts != [] {
      assert |FormatChunk(Hits(chunks, ids)[0])| > 0;
      assert |Join(parts, PART_SEPARATOR)| >= |parts[0]|;
    }
  }

  /** A single id contributes its chunk when it passes the bound check and
      nothing otherwise. */
  lemma HitsOfOne(chunks: seq<Chunk>, idx: int)
    requires 0 <= idx
    ensures Hits(chunks, [idx]) == if idx < |chunks| then [chunks[idx]] else []
  {
    assert [idx][..0] == [];
  }

  /** The hits of two runs of ids are the hits of the first followed by those
      of the second; with `HitsOfOne` this fixes `Hits` completely, order
      included. */
  lemma {:induction false} HitsAppend(chunks: seq<Chunk>, a: seq<int>, b: seq<int>)
    requires NonNegative(a) && NonNegative(b)
    ensures NonNegative(a + b)
    ensures Hits(chunks, a + b) == Hits(chunks, a) + Hits(chunks, b)
    decreases |b|
  {
    if b == [] {
      assert a + b == a;
    } else {
      var ab := a + b;
      assert ab[..|ab| - 1] == a + b[..|b| - 1];
      assert ab[|ab| - 1] == b[|b| - 1];
      HitsAppend(chunks, a, b[..|b| - 1]);
    }
  }

  /** No id yields more than one hit, and every hit is a stored chunk. */
  lemma {:induction false} HitsAreStored(chunks: seq<Chunk>, ids: seq<int>)
    requires NonNegative(ids)
    ensures |Hits(chunks, ids)| <= |ids|
    ensures forall j :: 0 <= j < |Hits(chunks, ids)| ==> Hits(chunks, ids)[j] in chunks
  {
    if ids != [] {
      HitsAreStored(chunks, ids[..|ids| - 1]);
    }
  }

  /** When every id is in range, hit `k` is the chunk of id `k`. */
  lemma {:induction false} HitsInRange(chunks: seq<Chunk>, ids: seq<int>)
    requires NonNegative(ids)
    requires forall k :: 0 <= k < |ids| ==> ids[k] < |chunks|
    ensures |Hits(chunks, ids)| == |ids|
    ensures forall k :: 0 <= k < |ids| ==> Hits(chunks, ids)[k] == chunks[ids[k]]
  {
    if ids != [] {
      var init := ids[..|ids| - 1];
      HitsInRange(chunks, init);
      var hits := Hits(chunks, init) + [chunks[ids[|ids| - 1]]];
      assert Hits(chunks, ids) == hits;
      forall k | 0 <= k < |ids|
        ensures hits[k] == chunks[ids[k]]
      {
        if k < |init| {
          assert init[k] == ids[k];
        }
      }
    }
  }

  /** No more than `RETRIEVAL_K` parts reach the context. */
  lemma ContextAtMostK(chunks: seq<Chunk>, ids: seq<int>)
    requires ValidHits(ids)
    ensures |ContextParts(chunks, ids)| <= Config.RETRIEVAL_K
  {
    HitsAreStored(chunks, ids);
  }

  /** The segment loop of `load_and_process_pdfs`: one record per segment,
      appended in order. */
  method AppendSegments(records: seq<Chunk>, segments: seq<string>, page: nat, source: string)
    returns (extended: seq<Chunk>)
    ensures extended == records + SegmentRecords(segments, page, source)
  {
    extended := records;
    for k := 0 to |segments|
      invariant extended == records + SegmentRecords(segments[..k], page, source)
    {
      assert segments[..k + 1][..k] == segments[..k];
      extended := extended + [Chunk(segments[k], page, source)];
    }
    assert segments[..|segments|] == segments;
  }

  /** Reading one more page appends that page's records. */
  lemma PagesRecordsStep(pages: seq<Option<string>>, lists: seq<seq<string>>, i: nat, source: string)
    requires lists == ChunkLists(pages) && i < |pages|
    ensures PagesRecords(lists[..i + 1], source)
      == PagesRecords(lists[..i], source) + SegmentRecords(PageChunks(pages[i]), i + 1, source)
  {
    var next := lists[..i + 1];
    assert next[..|next| - 1] == lists[..i];
    assert next[i] == PageChunks(pages[i]);
  }

  /** The body of the page loop: chunk the page's text (an empty string when
      the page has none) and append a record per chunk. */
  method ReadPage(records: seq<Chunk>, page: Option<string>, pageNum: nat, filename: string)
    returns (extended: seq<Chunk>)
    ensures extended == records + SegmentRecords(PageChunks(page), pageNum, filename)
  {
    var pageText := PageText(page);
    var segments := SlidingWindowChunking(pageText, WINDOW_SIZE, OVERLAP);
    extended := AppendSegments(records, segments, pageNum, filename);
  }

  /** One pass of the document loop of `load_and_process_pdfs`: the display
      name, then the records of the document's pages. */
  method ReadDocument(doc: Document) returns (records: seq<Chunk>)
    ensures records == DocumentRecords(doc)
  {
    var filename := CleanFilename(doc.path);
    records := ReadPages(doc, filename);
  }

  /** The page loop: the records of each page in turn, under `filename`,
      until the reader raises. */
  method ReadPages(doc: Document, filename: string) returns (records: seq<Chunk>)
    ensures records == PagesRecords(ChunkLists(ProcessedPages(doc)), filename)
  {
    ghost var lists := ChunkLists(doc.pages);
    records := [];
    var i := 0;
    assert lists[..0] == [];
    while i < |doc.pages|
      invariant i <= |doc.pages|
      invariant doc.failsAt.Some? ==> i <= doc.failsAt.value
      invariant records == PagesRecords(lists[..i], filename)
    {
      if doc.failsAt.Some? && doc.failsAt.value == i {
        // The reader raises: the `except` branch only reports it.
        break;
      }
      records := ReadPage(records, doc.pages[i], i + 1, filename);
      PagesRecordsStep(doc.pages, lists, i, filename);
      i := i + 1;
    }
    PagesReadAtExit(doc, lists, i, filename);
  }

  /** The page loop stops at the page where the reader raises or after the
      last page; either way it has read exactly the processed pages. */
  lemma PagesReadAtExit(doc: Document, lists: seq<seq<string>>, i: nat, source: string)
    requires lists == ChunkLists(doc.pages)
    requires i <= |doc.pages| && (doc.failsAt.Some? ==> i <= doc.failsAt.value)
    requires i == |doc.pages| || doc.failsAt == Some(i)
    ensures ProcessedPages(doc) == doc.pages[..i]
    ensures PagesRecords(lists[..i], source) == PagesRecords(ChunkLists(ProcessedPages(doc)), source)
  {
    assert |ProcessedPages(doc)| == i;
    ChunkListsPrefix(doc.pages, i);
  }

  /** Flattening one more element appends its image. */
  lemma FlattenStep<T, U>(xs: seq<T>, d: nat, f: T -> seq<U>)
    requires d < |xs|
    ensures Flatten(xs[..d + 1], f) == Flatten(xs[..d], f) + f(xs[d])
  {
    assert xs[..d + 1][..d] == xs[..d];
  }

  /** The document loop of `load_and_process_pdfs`: the records of each
      document in turn. */
  method CollectRecords(docs: seq<Document>) returns (newChunks: seq<Chunk>)
    ensures newChunks == IngestRecords(docs)
  {
    newChunks := [];
    for d := 0 to |docs|
      invariant newChunks == IngestRecords(docs[..d])
    {
      var records := ReadDocument(docs[d]);
      FlattenStep(docs, d, DocumentRecords);
      IngestIsFlatten(docs[..d]);
      IngestIsFlatten(docs[..d + 1]);
      newChunks := newChunks + records;
    }
    assert docs[..|docs|] == docs;
  }

  // ---------------------------------------------------------------------------
  // The knowledge base
  // ---------------------------------------------------------------------------

  class KnowledgeBase {
    /** `self.index`: `None` until a build succeeds. */
    var index: Option<VectorIndex>
    /** `self.chunks`: the records, row for row with the index. */
    var chunks: seq<Chunk>

    /** An index, when present, has one row per stored record, and there is
        at least one record. */
    predicate Valid()
      reads this
    {
      index.Some? ==> |index.value.rows| == |chunks| && chunks != []
    }

    constructor ()
      ensures Valid()
      ensures index == None && chunks == []
    {
      index := None;
      chunks := [];
    }

    /** `load_and_process_pdfs`: collect the records of every document, then
        either report that none were found and change nothing, or replace the
        records and the index together. */
    method LoadAndProcessPdfs(docs: seq<Document>, embed: string -> Vector) returns (message: Option<string>)
      requires Valid()
      modifies this
      ensures Valid()
      ensures IngestRecords(docs) == [] ==>
        message == Some(NO_TEXT_FOUND) && index == old(index) && chunks == old(chunks)
      ensures IngestRecords(docs) != [] ==>
        message == None && chunks == IngestRecords(docs)
        && index == Some(FlatL2(Embeddings(IngestRecords(docs), embed)))
    {
      var newChunks := CollectRecords(docs);
      if newChunks == [] {
        message := Some(NO_TEXT_FOUND);
        return;
      }
      var embeddings := Embeddings(newChunks, embed);
      assert |embeddings| == |newChunks|;
      var built := FlatL2(embeddings);
      index := Some(built);
      chunks := newChunks;
      message := None;
      assert index.value.rows == embeddings;
    }

    /** `search`: no context without an index, the guardrail message for an
        unsafe query, and otherwise the retrieved chunks, each behind its
        citation tag, separated by blank lines. `nearest` is the encoder and
        the vector index together: the row ids of the nearest stored chunks. */
    method Search(query: string, nearest: string -> seq<int>) returns (context: string)
      requires Valid()
      requires ValidHits(nearest(query))
      ensures index.None? ==> context == ""
      ensures index.Some? && IsUnsafeQuery(query) ==> context == GUARDRAIL_MESSAGE
      ensures index.Some? && !IsUnsafeQuery(query) ==>
        context == Join(ContextParts(chunks, nearest(query)), PART_SEPARATOR)
    {
      if index.None? {
        return "";
      }
      if IsUnsafeQuery(query) {
        return GUARDRAIL_MESSAGE;
      }
      var ids := nearest(query);
      var parts: seq<string> := [];
      for j := 0 to |ids|
        invariant parts == ContextParts(chunks, ids[..j])
      {
        assert ids[..j + 1][..j] == ids[..j];
        var idx := ids[j];
        if idx < |chunks| {
          var item := chunks[idx];
          ghost var hits := Hits(chunks, ids[..j]);
          assert FormatAll(hits + [item]) == FormatAll(hits) + [FormatChunk(item)];
          parts := parts + [FormatChunk(item)];
        }
      }
      assert ids[..|ids|] == ids;
      context := Join(parts, PART_SEPARATOR);
    }
  }
}
