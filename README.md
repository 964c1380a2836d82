# Clinical guideline assistant: retrieval core in Dafny

This project models the retrieval core of a question-answering assistant for
clinical guideline PDFs:

- **The knowledge base** (`ClinicalKnowledgeBase`, `src/rag_engine.py`). It
  cleans uploaded file names and splits each page's text into overlapping
  windows. It stores one record `{text, page, source}` per window, row for row
  with a vector index. It answers a query with the retrieved records, each
  behind a `[Source: '<file>', Page: <n>]` tag. Queries that ask for a
  subjective comparison trip a word-bounded phrase guardrail.
- **The source panel and the chat turn** (`app.py`). The panel extracts the
  citation tags from the retrieved context and shows the first three distinct
  `(file, page)` pairs. A chat turn records the question, then does one of
  three things: asks for documents when no index exists, says nothing was
  found when the context is empty, or asks the language model with the last
  five messages.
- **The language-model client** (`GeminiClient.generate_response`,
  `src/llm_client.py`). It formats the history, assembles the prompt and maps
  the outcome of the model call to the returned text.

## Layout

Modules follow the program's structure:

| file | module | what it models |
|---|---|---|
| `wrappers.dfy` | `Wrappers` | `Option` |
| `config.dfy` | `Config` | `RETRIEVAL_K` and the unsafe phrases |
| `text.dfy` | `Text` | Python whitespace, `strip`, `re.sub(r'\s+', ' ', text)`, ASCII `lower`/`upper`, `str(int)`, `join` |
| `chunking.dfy` | `Chunking` | `_sliding_window_chunking` |
| `guardrails.dfy` | `Guardrails` | `_is_unsafe_query` |
| `rag_engine.dfy` | `RagEngine` | filename cleaning, ingestion, `search`, and the `KnowledgeBase` class (`index`, `chunks`) |
| `citations.dfy` | `Citations` | `re.findall` of the citation pattern, and the round trip with `search`'s formatting |
| `source_cards.dfy` | `SourceCards` | `display_source_cards` |
| `llm_client.dfy` | `LlmClient` | `generate_response` |
| `chat.dfy` | `Chat` | the chat input handler and `st.session_state.messages` |

Python's loops become Dafny methods with loop invariants:

- the chunker loop (`WindowLoop`);
- the page, segment and document loops of ingestion (`AppendSegments`,
  `ReadPages`, `CollectRecords`);
- the part loop of `search`;
- the card loop of the panel (`FillCards`).

Each method is proved equal to a function. Lemmas then state the promised
properties about that function.

The two fields of the knowledge base are a class with a `Valid()` invariant:
an index, when present, has one row per record. The chat history is a class
whose input handler appends to a `seq`.

The foreign parts are parameters:

- PDF reading is a `Document`: its list of page texts and the page at which
  the reader raises, if it does.
- The sentence encoder is `embed: string -> Vector`.
- The encoder and the FAISS search together are `nearest: string -> seq<int>`.
- The Gemini call is `generate: string -> Outcome`.

### One window, two chunks

A text no longer than one window does not always give one chunk. The loop
steps by `window_size - overlap` and keeps every window longer than 50
characters. So under the defaults a normalised text of 851 to 1000 characters
gives two chunks: the whole text, and `norm[800..]`
(`Chunking.OneWindowTwoChunks`). The single-chunk case holds exactly when the
text also ends within 50 characters past the second start
(`Chunking.SingleChunk`).

## Model

| member | source | states |
|---|---|---|
| Chunking.SlidingWindows | src/rag_engine.py:127-140 | What the chunker returns: the windows of the normalised text from offset 0 in steps of `window_size - overlap`, each kept when longer than 50 characters. |
| Chunking.SlidingWindowChunking | src/rag_engine.py:127-140 | The chunker's output is exactly the windows of the whitespace-normalised text, taken at `0, step, 2*step, ...` and kept when longer than 50 characters. |
| Chunking.WindowLoop | src/rag_engine.py:134-139 | The `while start < len(text)` loop with its `> 50` filter and `start += step` produces exactly those windows, in order. |
| Chunking.ChunksAreWindows | src/rag_engine.py:129-140 | Chunk `j` is `norm[j*step : j*step + window_size]` at a start inside the text. Conversely, every start inside the text whose window is longer than 50 gives a chunk. |
| Chunking.ChunkLengths | src/rag_engine.py:137 | Every chunk is longer than 50 characters and at most `window_size` long. |
| Chunking.ShortTextNoChunk | src/rag_engine.py:129-139 | A normalised text of at most 50 characters gives no chunk. |
| Chunking.SingleChunk | src/rag_engine.py:134-139 | A normalised text longer than 50 that fits in one window and ends within 50 characters past the second start gives exactly one chunk: the normalised text itself. |
| Chunking.OneWindowTwoChunks | src/rag_engine.py:134-139 | With the defaults, a normalised text of 851-1000 characters gives two chunks: the text and its suffix from offset 800. |
| Chunking.OverlapShared | src/rag_engine.py:134-139 | When chunk `j` is a full window and chunk `j+1` exists, its last `overlap` characters are the first `overlap` characters of chunk `j+1`. |
| Chunking.PassageInSomeChunk | src/rag_engine.py:134-139 | With an overlap and a step of at least 50, and a normalised text longer than 50, every passage of the normalised text no longer than the overlap lies whole inside some chunk. |
| Chunking.DefaultPageOf2500 | src/rag_engine.py:127-140 | With the defaults, a 2500-character normalised page gives four chunks, at 0, 800, 1600 and 2400. The last is 100 characters long. |
| Chunking.OverlapOf300PageOf2500 | src/rag_engine.py:127-140 | With window 1000 and overlap 300, a 2500-character page gives chunks at 0, 700, 1400 and 2100. The last is 400 long. |
| Text.NormalizeWhitespace | src/rag_engine.py:129 | `re.sub(r'\s+', ' ', text).strip()`: every whitespace run becomes one space, then the ends are trimmed. |
| Text.NormalizeIsNormalized | src/rag_engine.py:129 | After `re.sub(r'\s+', ' ', text).strip()`, the only whitespace is single spaces, and none is at either end. `Text.NormalizeSeparates` states that each run between two words does leave one space. |
| Text.NormalizeSeparates | src/rag_engine.py:129 | A whitespace run between two non-whitespace characters becomes exactly one space: the result is the normalised text up to the first character, one space, then the normalised text from the second. |
| Text.NormalizeKeepsNonSpace | src/rag_engine.py:129 | Normalisation keeps every non-whitespace character, in order. |
| Text.NormalizeIdempotent | src/rag_engine.py:129 | Normalising twice is normalising once. |
| Text.Strip | src/rag_engine.py:129 | `strip()` returns the slice that starts after the leading whitespace run and is followed only by whitespace; it neither starts nor ends with whitespace. |
| Text.StripTrims | src/llm_client.py:56 | `strip()` leaves no whitespace at either end and keeps every non-whitespace character. An all-whitespace string becomes empty. |
| Text.Lower | src/rag_engine.py:143 | `lower()` keeps the length and maps each character through the ASCII lower-case mapping. |
| Text.Upper | src/llm_client.py:16 | `upper()` keeps the length and maps each character through the ASCII upper-case mapping. |
| Text.JoinAppend | src/rag_engine.py:98 | `sep.join(parts + [p])` is `sep.join(parts)`, the separator, then `p`, for non-empty `parts`. |
| Text.NatToString | src/rag_engine.py:95 | `str(n)` for a page number is a non-empty run of decimal digits, with a leading `0` only for `n == 0`. |
| Guardrails.SearchFrom | src/rag_engine.py:144 | `re.search(r"\b<phrase>\b", s)` succeeds exactly when the phrase occurs at some offset with a word boundary on both sides. |
| Guardrails.AnyPhrase | src/rag_engine.py:144 | `any(...)` over the patterns holds exactly when some phrase matches with word boundaries. |
| Guardrails.IsUnsafeQuery | src/rag_engine.py:142-144 | The guardrail holds exactly when the lower-cased query contains an unsafe phrase with a word boundary on both sides. |
| Guardrails.PhraseTrips | src/config.py:26-29 | An unsafe phrase, in any letter case, standing between non-word characters anywhere in a query trips the guardrail. |
| Guardrails.WhichDrugIsBlocked | src/rag_engine.py:142-144 | "which drug is best for hypertension" is blocked. |
| Guardrails.UpperCaseIsBlocked | src/rag_engine.py:143 | "BEST dose?" is blocked, because matching is on the lower-cased query. |
| Guardrails.BestowIsNotBlocked | src/rag_engine.py:144 | "bestow" is not blocked: `\b` rejects a phrase glued to further letters. |
| RagEngine.Basename | src/rag_engine.py:31 | The basename is the suffix of the path after its last `/` and holds no `/`. |
| RagEngine.CleanFilename | src/rag_engine.py:31-35 | A basename containing `_` gives the text after its first `_`. Any other basename is returned unchanged. |
| RagEngine.CleanFilenameRecoversUpload | src/rag_engine.py:29-35 | The temporary file `<dir>/<prefix>_<name>`, with a prefix free of `_` and `/`, is displayed as `name`. |
| RagEngine.CleanFilenameKeepsPlainName | src/rag_engine.py:32-35 | A basename without `_` is displayed as is. |
| RagEngine.DocumentRecords | src/rag_engine.py:29-55 | The records of one document: for each page read before the reader raises, one record per chunk of its text, with its 1-based page number and the cleaned filename. |
| RagEngine.IngestRecords | src/rag_engine.py:27-55 | The records of all documents, document after document. |
| RagEngine.ProcessedPages | src/rag_engine.py:39-55 | The pages handled are a prefix of the document's pages: all of them, or those before the page at which the reader raises. |
| RagEngine.AppendSegments | src/rag_engine.py:48-53 | The segment loop appends one `{text, page, source}` record per segment, in order, and keeps the earlier records. |
| RagEngine.ReadPage | src/rag_engine.py:41-53 | A page appends the records of its chunks under its page number. A page without text counts as `""`. |
| RagEngine.ReadPages | src/rag_engine.py:39-53 | The page loop collects, under the given name, the records of every page up to the one at which the reader raises, or of all pages. |
| RagEngine.ReadDocument | src/rag_engine.py:29-55 | One pass of the document loop collects exactly the document's records, as specified by `DocumentRecords`. |
| RagEngine.CollectRecords | src/rag_engine.py:27-55 | The document loop collects exactly the concatenation of every document's records, in document order. |
| RagEngine.FailingDocumentKeepsPrefix | src/rag_engine.py:39-55 | A document whose reader raises contributes a prefix of the records it would give without the exception. |
| RagEngine.IngestAppend | src/rag_engine.py:29-55 | Ingesting two lists of documents gives the first list's records followed by the second's. A failing document does not stop the later ones. |
| RagEngine.PagesRecordsShape | src/rag_engine.py:41-53 | Each record of a run of pages carries that run's source, a 1-based page number of a page in the run, and one of that page's chunks. Page numbers never decrease. |
| RagEngine.DocumentRecordsShape | src/rag_engine.py:29-55 | Each record of a document comes from a page read before any exception, carries its 1-based number, one of its chunks and the display name, and has a chunk-sized text. Page numbers never decrease. |
| RagEngine.IngestRecordsShape | src/rag_engine.py:25-55 | Every ingested record comes from one of the documents in that way and has a text of 51 to 1000 characters. |
| RagEngine.KnowledgeBase.constructor | src/rag_engine.py:19-22 | A new knowledge base has no index and no records. |
| RagEngine.KnowledgeBase.LoadAndProcessPdfs | src/rag_engine.py:25-74 | No records gives the "No relevant clinical text" message and changes nothing. Otherwise both `chunks` and `index` are replaced: `chunks` by the new records, the index by their embeddings. The index always has one row per record. |
| RagEngine.KnowledgeBase.Search | src/rag_engine.py:77-98 | Search returns `""` without an index and the fixed guardrail message for an unsafe query. Otherwise it returns the `"\n\n"`-join of the tagged blocks of the returned ids that pass `idx < len(chunks)`, in the order the index returns them. |
| RagEngine.FormatChunk | src/rag_engine.py:95 | The block `[Source: '<source>', Page: <page>]\n<text>` of one record. |
| RagEngine.Hits | src/rag_engine.py:91-93 | The records of the returned ids that pass `idx < len(chunks)`, in id order. |
| RagEngine.SearchContext | src/rag_engine.py:82-98 | What `search` returns once an index exists: the guardrail message for an unsafe query, otherwise the formatted hits joined by `"\n\n"`. |
| RagEngine.SearchContextEmpty | src/rag_engine.py:82-98 | Once an index exists, the context is empty exactly when the query is safe and no returned id passes the bound check. |
| RagEngine.HitsOfOne | src/rag_engine.py:92-96 | A single id contributes its chunk when it is below `len(chunks)`, and nothing otherwise. |
| RagEngine.HitsAppend | src/rag_engine.py:91-96 | The parts for two runs of ids are those of the first followed by those of the second. |
| RagEngine.HitsAreStored | src/rag_engine.py:91-96 | There are no more parts than ids, and every part's chunk is a stored record. |
| RagEngine.HitsInRange | src/rag_engine.py:91-96 | When every id is in range, part `k` is the record of id `k`. |
| RagEngine.ContextAtMostK | src/rag_engine.py:87-96 | At most `RETRIEVAL_K` (5) parts reach the context. |
| Citations.TagAt | app.py:101 | The pattern `\[Source: '(.*?)', Page: (\d+)\]` at the start of a text: the opening, the shortest newline-free name followed by the tail, and the captured pair with the match length. |
| Citations.FindAll | app.py:102 | `re.findall`: scan left to right, take a match where one starts and resume after it, otherwise move on one character. |
| Citations.DigitRun | app.py:101 | `(\d+)` takes the longest run of leading digits. |
| Citations.TailAtIff | app.py:101 | `', Page: (\d+)\]` matches at the start of a text exactly when the text starts with that separator, a non-empty digit run and `]`. |
| Citations.TagAtSound | app.py:101 | A match is a complete `[Source: '<name>', Page: <digits>]` whose name has no newline and is the shortest one followed by a tail. |
| Citations.TagAtComplete | app.py:101 | Every complete tag with the shortest such name is matched, with its name, digits and length. |
| Citations.FindAllAtTag | app.py:102 | Where a match starts, `findall` takes it and resumes right after it. |
| Citations.SkipUntagged | app.py:102 | A stretch without `[Source: '` adds no match and does not disturb the matches after it, provided it ends in a newline or one of the two parts is empty. Then no `[Source: '` opening can straddle the join, because the opening holds no newline. |
| Citations.RoundTripLast | src/rag_engine.py:95 | For a `Citable` chunk (see Left out), the tagged block of the chunk yields exactly that chunk's `(source, str(page))`. |
| Citations.RoundTripCons | src/rag_engine.py:95-98 | For a `Citable` chunk, its block followed by the separator yields its own pair, then whatever follows yields. |
| Citations.ContextRoundTrip | app.py:101-102 | Extracting the tags from the `"\n\n"`-join of formatted chunks recovers exactly their `(source, str(page))` pairs, in order. This needs every source free of newlines and of `', Page: `, and every text free of `[Source: '`; the last hypothesis is stronger than needed (see Left out). |
| Citations.SearchContextCitations | src/rag_engine.py:90-98 | When every stored record is `Citable`, the tags extracted from a context built by `search` are exactly the pairs of the retrieved records, in retrieval order. |
| SourceCards.FirstOccurrences | app.py:116-126 | The first match of each identifier, in match order. |
| SourceCards.Cards | app.py:116-126 | The first three of those. |
| SourceCards.SourcePanel | app.py:95-129 | No panel without a match; otherwise the cards, with the "no metadata" caption when there are none. |
| SourceCards.DisplaySourceCards | app.py:95-129 | With no match, nothing is shown. Otherwise the panel shows the cards the loop selects and the caption exactly when no card was selected. |
| SourceCards.FillCards | app.py:116-126 | The card loop, with its set of identifiers and its counter, selects the first three matches of distinct identifier, in match order. The count equals the number of cards. |
| SourceCards.CardsStep | app.py:118-126 | One more match adds a card exactly when its identifier is new among the cards and fewer than three are shown. |
| SourceCards.FirstOccurrencesShape | app.py:116-126 | The first occurrences have pairwise distinct identifiers, cover every identifier of the matches, and are matches themselves. |
| SourceCards.CardsShape | app.py:116-126 | At most three cards, with pairwise distinct identifiers, each a match. A match's identifier is left out only when three cards are already shown. |
| SourceCards.CaptionNeverShown | app.py:104-129 | The panel appears exactly when the context holds a tag, and it then has at least one card. So the caption branch is never taken. |
| SourceCards.IdentifierInjective | app.py:118 | Equal identifiers `"<file> (Page <n>)"` with digit pages come from equal `(file, page)` pairs. |
| LlmClient.HistoryLine | src/llm_client.py:16 | `ROLE: content` for one message, with the role upper-cased. |
| LlmClient.FormatHistory | src/llm_client.py:15-17 | The history lines joined by newlines. |
| LlmClient.BuildPrompt | src/llm_client.py:20-45 | The prompt template with the context, the formatted history and the query filled in. |
| LlmClient.ReplyOf | src/llm_client.py:47-61 | The returned text for each outcome of the call: the stripped text, the empty-response message, the quota message, `"API Error: " + message`, or the exception passed on. |
| LlmClient.GenerateResponse | src/llm_client.py:11-61 | The reply for the outcome of the call on the prompt built from the context, the formatted history and the query. |
| LlmClient.HistoryLines | src/llm_client.py:15-17 | One `ROLE: content` line per message, in order. |
| LlmClient.FormatHistoryAppend | src/llm_client.py:15-17 | An empty history formats as `""` and one message as its own line. A further message adds a newline and its line. |
| LlmClient.FormatHistoryLines | src/llm_client.py:15-17 | Without newlines in roles and contents, the formatted history of `n > 0` messages holds exactly `n - 1` newlines. |
| LlmClient.PromptLayout | src/llm_client.py:20-45 | The prompt opens with the security instructions. Then come the context, the formatted history and the query, verbatim and in that order, each at a fixed offset. The answering instructions close it. |
| LlmClient.PromptDeterminesQuery | src/llm_client.py:20-45 | With the same context and history, different queries give different prompts. |
| LlmClient.CompletionIsTrimmed | src/llm_client.py:56 | A non-empty completion text is returned stripped. |
| LlmClient.EmptyCompletion | src/llm_client.py:56 | A missing or empty completion text gives "Error: Empty response.". |
| LlmClient.QuotaMessageIff | src/llm_client.py:58-61 | A `ClientError` gives the quota message exactly when its text contains `RESOURCE_EXHAUSTED`. Otherwise it gives `"API Error: " + text`. |
| LlmClient.OnlyOtherErrorsRaise | src/llm_client.py:47-61 | Only an exception other than `ClientError` escapes the client. |
| Chat.LastN | app.py:160 | `messages[-5:]`: the last five messages, or all of them. |
| Chat.TurnFor | app.py:145-168 | The routing of a recorded question: the upload hint with the warning without an index; the no-information response on an empty context; otherwise the model's reply over the last five messages and the source panel of the context, or the exception that ended the turn. |
| Chat.ChatSession.constructor | app.py:51-52 | A new session has no messages. |
| Chat.ChatSession.HandleInput | app.py:139-170 | A missing or empty input does nothing. Otherwise the turn follows the routing given the knowledge base, the question and the history with the question recorded. The question is appended, and then the response unless the model call raised. Earlier messages are unchanged. |
| Chat.Respond | app.py:145-168 | The hint when no index exists. Otherwise it searches, gives the fixed no-information response on an empty context, and otherwise answers with the model over the last five messages. After an answer to a non-empty context, it shows the source panel for that context. |
| Chat.NoIndexTurn | app.py:145-147 | Without an index the warning is shown and the upload hint is the response appended to the history; the model is not asked, so the turn is the same whatever the model would say. |
| Chat.NothingRetrievedTurn | app.py:151-154 | A safe question whose ids all fail the bound check gets the fixed no-information response and no panel. |
| Chat.UnsafeTurn | app.py:151-168 | An unsafe question reaches the model with the guardrail message as its context, and the panel then shows nothing. |
| Chat.GuardrailHasNoTag | app.py:166-168 | The guardrail message holds no citation tag. |
| Chat.CitedTurn | app.py:151-168 | When every stored record is `Citable`, a safe question that retrieves records is answered by the model. The panel then shows, without caption, the first one to three distinct `(source, page)` pairs of the retrieved records, in retrieval order. |
| Chat.QuestionEndsHistory | app.py:140-160 | The history the model sees has one to five messages and ends with the question being asked. The formatted history ends with its line. |

## Left out

- **Vector search.** FAISS, the sentence encoder and float32 arithmetic are
  left out. The encoder is the parameter `embed`. The encoder and the L2
  search together are the oracle `nearest`, which returns row ids.
- **Id range.** `RagEngine.KnowledgeBase.Search` requires at most
  `RETRIEVAL_K` ids, none of them negative. FAISS pads with `-1` when it holds
  fewer than `k` vectors, and line 92 of `src/rag_engine.py` checks only the
  upper bound. Python would then index the last record. The model does not
  follow that path.
- **PDF reading.** `PdfReader` is a `Document`: a list of page texts (`None`
  when `extract_text` returns nothing) and an optional page at which reading
  raises. A text that depends on the PDF format is outside the model.
- `save_index` / `load_index`: file and pickle input/output.
- **Streamlit rendering.** The card markdown, the panel heading, columns,
  spinners, the upload widgets and temporary files, the password gate and
  the sidebar are left out. A turn records its response (the text appended
  to `messages`), whether the empty-knowledge-base warning is shown, and the
  panel.
- **The no-index response is not rendered.** With no index
  (`app.py:145-147`) the upload hint is only appended to `messages`:
  `st.markdown(response)` at line 163 runs in the other branch only. What
  that turn displays is the warning. `Chat.Turn`'s `response` is the
  appended text, which in that branch is not what the turn renders.
- **The Gemini call.** The network call, the model name, the temperature and
  the token cap are the parameter `generate`. So are exceptions other than
  `ClientError` (`Outcome.OtherError`); one of them ends the turn after the
  question has been recorded.
- **Logging.** `print` is left out.
- **Case mapping.** `lower()` and `upper()` are modelled on ASCII letters
  only. `\w` and `\d` are modelled on ASCII. Python also accepts other
  Unicode letters and digits there.
- **Random upload prefixes.** `RagEngine.CleanFilenameRecoversUpload` assumes the
  temporary file prefix has no `_`. That prefix is randomly generated, so a
  prefix with `_` displays a different name.
- **The cite format in the prompt.** The prompt asks the model to cite as
  `[Source: "file", Page: X]` with double quotes. The source panel parses
  only the retrieved context, which uses single quotes. Nothing here claims
  that the language model's answer is parsed.
- `src/embeddings_service.py` is not part of this model: nothing in the
  engine uses it.
- `CHUNK_SIZE` and `KEYWORDS` in `src/config.py` are not read by the
  modelled code.
- **Overlap of a window or more.** `Chunking.SlidingWindowChunking` requires
  `overlap < window_size`. Otherwise the step `window_size - overlap` is not
  positive and the source's loop never ends. Every caller uses the defaults
  1000 and 200.
- Citations.ContextRoundTrip: its hypothesis `Citable` (shared by
  `Citations.RoundTripLast`, `Citations.RoundTripCons`,
  `Citations.SearchContextCitations` and `Chat.CitedTurn`) asks that no
  source contain a newline or `', Page: `, and that no chunk
  text contain `[Source: '` at all. That is stronger than needed: an opening
  not followed by a complete tag on the same line yields no match, because
  the lazy name cannot cross a newline. The round trip is not proved for such
  texts. The source conditions are needed: an upload named
  `a', Page: 1].pdf` makes the lazy name stop inside the file name, so the
  panel shows a pair the record does not carry.
