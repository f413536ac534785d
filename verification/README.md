# LangGraph documentation RAG service — a Dafny model

This project models the core of `RAGService` in `backend/rag_service.py`.
That service crawls the LangGraph section of the LangChain documentation,
turns each page into a document, ingests the documents into a retrieval
index, answers questions with sources drawn from that index, and reports
statistics. The model covers:

- **The crawler** (`scrape_langchain_docs`). It is a breadth-first loop over
  a FIFO frontier with a visited set and a page budget. Each visited page goes
  through these steps:
  - a content-region cascade: the first selector that finds something wins,
    else the longest `div`, but only if it has at least 500 characters;
  - text cleanup: runs of three or more newlines collapse to two, then
    Python's `strip` is applied;
  - a length threshold: the text must be longer than 300 characters;
  - a title rule: every occurrence of the branding text is removed, then the
    result is stripped.

  Accepted pages append a document and a ledger record in lockstep. Their
  in-scope links join the frontier while budget remains.
- **Ingestion** (`ingest_documents`). It resets the ledger, crawls only when
  given a URL and no documents, and refuses an empty input. It then builds a
  new index or inserts into the existing one document by document, and
  reports counts and character totals. An engine failure returns the ledger
  built so far.
- **Query** (`query`). Without an index it fails at once. Otherwise the
  engine's answer comes back with one source per returned passage. Each
  source's text is previewed to 300 characters plus `...`. An absent score
  becomes `None` and absent metadata becomes `{}`.
- **Stats** (`get_stats`). It reports `no_index` without an index. Otherwise
  it gives the ledger's size, the vector count and the ledger.

The crawl is specified as a function (`Crawler.Run` over `Crawler.Step`). The
imperative loop in `Service.RagService.ScrapeDocs` is proved to produce
exactly that function's documents and ledger. The crawl's guarantees are
proved as lemmas:

- the budget and the visit count;
- the duplicate-free frontier, disjoint from the visited set;
- the scope of enqueued URLs;
- FIFO order;
- lockstep ledgers and strictly increasing page numbers;
- well-formed text.

The retrieval index is the field `index: Option<seq<Document>>`, holding the
documents handed to the engine. It is a real field rather than a ghost one,
because `query` and `get_stats` branch on whether it exists. The document
count in the stats is the size of the ledger, which the last ingestion reset.
After ingesting ready-made documents it is 0, whatever the index holds.

Files:

- `text.dfy` (`TextRules`): Python whitespace, `strip`, the newline collapse,
  the normalised text, `replace`, `split('/')[-1]` and the title rule.
- `wrappers.dfy` (`Wrappers`): the optional value shared by the other modules.
- `extract.dfy` (`Extract`): the region cascade and what one
  page yields.
- `links.dfy` (`LinkFilter`): the href filter and the link loop as a fold.
- `crawl.dfy` (`Crawler`): the crawl state, one turn, the whole run, its
  invariant and theorems.
- `service.dfy` (`Service`): the class `RagService` with the crawl loop,
  ingestion, query and stats.

## Model

| member | source | states |
|---|---|---|
| TextRules.TrimStart | backend/rag_service.py:144 | the left strip is the longest suffix not starting with whitespace; all cut characters are whitespace |
| TextRules.TrimEnd | backend/rag_service.py:144 | the right strip is the longest prefix not ending with whitespace; all cut characters are whitespace |
| TextRules.Strip | backend/rag_service.py:144 | Python's `strip` never lengthens the text and leaves no whitespace at either end |
| TextRules.StripSpec | backend/rag_service.py:144 | `strip` returns a contiguous middle block of its input, with whitespace cut from both ends and no whitespace at either end of the result |
| TextRules.StripFixesStripped | backend/rag_service.py:144 | a string with no whitespace at either end is unchanged by `strip` |
| TextRules.StripIdempotent | backend/rag_service.py:150 | stripping twice is stripping once |
| TextRules.CollapseNewlines | backend/rag_service.py:143 | the collapse never lengthens the text, empties only the empty text and keeps the first character |
| TextRules.CollapseLeavesNoRun | backend/rag_service.py:143 | after the collapse no three consecutive newlines remain |
| TextRules.CollapseFixesRunFree | backend/rag_service.py:143 | text without a run of three newlines is unchanged by the collapse |
| TextRules.CollapseKeepsOtherText | backend/rag_service.py:143 | the collapse deletes newlines only: with newlines removed, input and output are equal |
| TextRules.StripKeepsNoRun | backend/rag_service.py:143-144 | stripping text without a run of three newlines creates no such run |
| TextRules.Normalise | backend/rag_service.py:143-144 | the cleanup (collapse, then `strip`) never lengthens the text and its result is normal: no run of three newlines, no whitespace at either end |
| TextRules.NormaliseIsNormal | backend/rag_service.py:143-144 | the cleaned page text has no run of three newlines and no whitespace at either end |
| TextRules.NormalIsFixed | backend/rag_service.py:143-144 | text that is already normal is left alone by the cleanup |
| TextRules.NormaliseSpec | backend/rag_service.py:143-144 | the cleaned text is normal, and cleaning it again changes nothing |
| TextRules.RemoveAll | backend/rag_service.py:150 | `replace(pat, '')` never lengthens the text |
| TextRules.RemoveAllAbsent | backend/rag_service.py:150 | removing a pattern that does not occur changes nothing |
| TextRules.RemoveAllAtFirst | backend/rag_service.py:150 | `replace(pat, '')` keeps the text before the first occurrence of `pat`, drops that occurrence and continues on the rest; with `RemoveAllAbsent` this determines the result on every input, including a brand in the middle or repeated |
| TextRules.RemoveAllKeepsPrefix | backend/rag_service.py:150 | a prefix in which no occurrence of the pattern starts comes through `replace` unchanged, followed by the removal applied to the rest |
| TextRules.RemoveAllShortens | backend/rag_service.py:150 | a pattern that occurs is removed, so the text becomes strictly shorter |
| TextRules.RemoveAllUnchanged | backend/rag_service.py:150 | `replace(pat, '')` returns its input unchanged exactly when `pat` does not occur |
| TextRules.RemoveBrandSuffix | backend/rag_service.py:150 | a title ending in the brand, with no other occurrence of it, loses exactly the brand |
| TextRules.LastSegment | backend/rag_service.py:149 | `url.split('/')[-1]` is the suffix after the last `/` (all of the URL without one, empty after a trailing slash) and contains no `/` |
| TextRules.Title | backend/rag_service.py:150 | a title never starts or ends with whitespace |
| TextRules.TitleDropsBrand | backend/rag_service.py:150 | a branded title becomes its stripped stem |
| TextRules.TitleOfUnbranded | backend/rag_service.py:150 | an unbranded title is only stripped |
| Extract.FirstPresent | backend/rag_service.py:112-122 | the `or` chain picks the first selector that found something; every earlier one found nothing |
| Extract.LongestDiv | backend/rag_service.py:130 | `max` by stripped text length returns a longest div, and the first of equally long ones |
| Extract.SelectRegion | backend/rag_service.py:112-132 | a found selector's region wins; failing all, a region exists iff some div has at least 500 characters, and it is the first longest div, the one `max` returns |
| Extract.PageTitle | backend/rag_service.py:149-150 | the title comes from the title element or else the URL's last segment, after the title rule; a title element without a single string yields no title |
| Extract.PageOutcome | backend/rag_service.py:99-202 | fetch failures raise; no region means no content; accepted text is longer than 300 characters and normal, with the region's links and, as title, the title rule's result `PageTitle` (stripped); too-short text is at most 300 characters; a title element without a string raises |
| Extract.AcceptedExactly | backend/rag_service.py:134-160 | a page is accepted exactly when it is fetched, has a region, its cleaned text is longer than 300 characters and its title is readable; the accepted text is the cleaned region text |
| LinkFilter.Candidate | backend/rag_service.py:179-183 | anchors and `http` hrefs outside the base domain are dropped; every other href is resolved against the page URL |
| LinkFilter.Admit | backend/rag_service.py:179-190 | one href either leaves the queue alone or appends exactly one URL; it appends iff the href yields a candidate that is in scope (`InScope`: under the base domain and containing `/langgraph/`), unvisited and not already queued, and the appended URL is that candidate |
| LinkFilter.EnqueueLinks | backend/rag_service.py:175-190 | the link loop only appends to the queue, and every URL it appends is in scope and unvisited |
| LinkFilter.EnqueueLinksSpec | backend/rag_service.py:174-190 | the link loop only appends; every appended URL is in scope, unvisited, not already queued and taken from some href; duplicates are never introduced; every in-scope unvisited candidate ends up queued |
| Crawler.Visit | backend/rag_service.py:96-97 | visiting the head counts exactly one page |
| Crawler.Step | backend/rag_service.py:89-97 | each turn either counts one page, or skips a visited URL and shortens the queue |
| Crawler.Run | backend/rag_service.py:89 | the crawl stops only with an empty frontier or a spent budget |
| Crawler.StartInv | backend/rag_service.py:76-87 | the initial state `Start` (seed queued, nothing visited, no pages counted, no documents) satisfies the crawl invariant |
| Crawler.VisitShape | backend/rag_service.py:90-190 | a visit dequeues the head, marks it visited and counts it; only an accepted page adds a document, its record and (while budget remains) links |
| Crawler.StepShape | backend/rag_service.py:90-190 | an unvisited head's turn is the visit of its page's outcome |
| Crawler.TurnSkip | backend/rag_service.py:93-94 | skipping a visited head leaves the rest of the crawl unchanged |
| Crawler.TurnVisit | backend/rag_service.py:96-190 | a turn that harvests a page as the loop body does leads to the same crawl result |
| Crawler.StepVisits | backend/rag_service.py:93-97 | under the invariant the head is never already visited, so the skip never fires; the count stays equal to the visits and within budget |
| Crawler.DequeueFrontier | backend/rag_service.py:90-96 | after popping the head and marking it visited, the rest of the frontier is still duplicate-free, unvisited and in scope |
| Crawler.EnqueueFrontier | backend/rag_service.py:175-190 | the link loop keeps the frontier duplicate-free, unvisited and in scope |
| Crawler.VisitFrontier | backend/rag_service.py:90-190 | any visit keeps the frontier duplicate-free, disjoint from the visited set and in scope beyond the seed |
| Crawler.VisitLog | backend/rag_service.py:90-190 | visit order followed by frontier is only appended to (FIFO) |
| Crawler.ExtendOrder | backend/rag_service.py:97 | a further visit does not disturb the page numbers of earlier documents |
| Crawler.AppendDocument | backend/rag_service.py:152-168 | appending a well-formed document, numbered by the latest visit, keeps documents and ledger in lockstep with strictly increasing page numbers |
| Crawler.VisitDocuments | backend/rag_service.py:147-168 | any visit keeps documents and ledger in lockstep, all documents well formed and numbered by their visit |
| Crawler.StepFrontier | backend/rag_service.py:89-190 | a turn keeps the frontier invariant and the FIFO log |
| Crawler.StepDocuments | backend/rag_service.py:89-168 | a turn keeps the documents invariant |
| Crawler.StepSpec | backend/rag_service.py:89-202 | a turn keeps the invariant and counts one new URL; non-accepted pages change only the visit bookkeeping; accepted ones add one document and its matching record (`RecordOf`: same URL, title and page number, length the text length); no links are harvested once the budget is reached |
| Crawler.RunSpec | backend/rag_service.py:89-202 | the invariant holds at the end; visit order, FIFO log, documents and ledger only grow |
| Crawler.SourcesUnique | backend/rag_service.py:152-160 | no two documents come from the same URL |
| Crawler.TotalCharacters | backend/rag_service.py:260 | the character total of the documents; zero for none |
| Crawler.TotalCharactersAppend | backend/rag_service.py:260 | the character total of two batches of documents is the sum of their totals |
| Crawler.LedgerCharactersMatch | backend/rag_service.py:166 | for ledgers in lockstep, the sum of the `length` fields equals the total text length |
| Crawler.CrawlSpec | backend/rag_service.py:62-208 | the finished crawl `Crawl`, run with `ConfigFor`'s base domain (`domainOf` of the seed, lines 81-82): page count equals visited-set size and visit count, within budget (0 for a non-positive budget); stopped; frontier duplicate-free, unvisited, in scope; documents and ledger in lockstep; documents well formed, from distinct visited URLs, numbered by visit, strictly increasing; the seed visited first; character totals agree |
| Service.Preview | backend/rag_service.py:309 | a passage of at most 300 characters is kept; a longer one becomes its first 300 characters and `...`, 303 in all |
| Service.PreviewIdempotent | backend/rag_service.py:309 | previewing a preview changes nothing |
| Service.SourceOf | backend/rag_service.py:308-312 | a source's text is the preview of the passage text, at most 303 characters; it keeps the score (None when absent) and the metadata (`{}` when absent) |
| Service.QueueLinks | backend/rag_service.py:175-190 | the imperative link loop computes the link fold `EnqueueLinks` |
| Service.RagService.constructor | backend/rag_service.py:44-58 | a new service has the loaded index (or none) and an empty ledger |
| Service.RagService.ScrapeDocs | backend/rag_service.py:62-208 | the crawl loop returns exactly the specified crawl's documents and appends exactly its ledger records to `scrapedPages` |
| Service.RagService.HarvestPage | backend/rag_service.py:99-191 | an accepted page yields its document, appends its record and queues its links while budget remains; any other page changes nothing |
| Service.RagService.InsertEach | backend/rag_service.py:248-250 | inserting one by one appends all documents to the index, or those before the failing one |
| Service.RagService.IngestDocuments | backend/rag_service.py:210-272 | the ledger is reset (then the crawl's); crawling (`Crawls`, `IngestInput`, lines 226-229) only for a non-empty URL with no documents, and then the crawl's documents are ingested; empty input is an error with an empty ledger and the index unchanged; an engine failure is an error with the ledger so far (no index after a failed build, earlier inserts kept); success reports the count, the ledger and the text total, with the index holding the documents; crawled totals equal the ledger's lengths and counts its size |
| Service.RagService.Query | backend/rag_service.py:274-329 | without an index: error, no sources, engine not asked; engine failure: error, no sources; otherwise the answer and one source per passage in order, each previewed |
| Service.RagService.GetStats | backend/rag_service.py:331-353 | `no_index` iff there is no index; an error iff the vector count fails; otherwise the ledger's size, the vector count and the ledger |

## Left out

- HTTP fetching (the GET, the User-Agent header, the timeout, `raise_for_status`): a page is given by the parameter `Web.fetch`, and any failure is `FetchFailed`.
- HTML parsing with BeautifulSoup (`find`, `find_all`, `decompose`, `get_text`): a page is its selector results, its divs in document order and its title element. A region is its stripped text length, its newline-joined text with navigation elements removed, and its anchor hrefs.
- `urljoin` and `urlparse`: they are the uninterpreted parameters `Web.resolve` and `Web.domainOf`.
- `time.sleep` and all console output are left out.
- The retrieval engine (LlamaIndex, ChromaDB, OpenAI embeddings and the LLM):
  - The index is the sequence of documents handed to it.
  - The engine's reply to a question is the input `EngineReply`. The `question` and `topK` parameters are not interpreted.
  - `collection.count()` is an optional input to `GetStats`.
  - Engine failure during ingestion is a fault position `faultAt`.
  - Loading a persisted index in the constructor is its parameter.
- Status messages and error texts are left out. Results carry a status and a failure kind instead.
- The Flask routes, CORS, `app.run` and `backend/test_scraping.py` are not part of this model.
- Service.RagService.HarvestPage: assumes the link loop and `urljoin` never raise. In the source, an exception there would keep the page's document but drop its remaining links.
- Extract.PageOutcome: does not model an exception raised while building the document (after the title) other than a title element without a single string.
- Service.RagService.Query: does not model an exception raised while building a source, which would turn a success into an error.
- Crawler.CrawlSpec: states that queued URLs are in scope beyond the seed. The seed URL itself is not checked against the `/langgraph/` marker, just as the source does not check it.
