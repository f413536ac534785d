/** The RAG service: the crawler as the loop it is, ingestion into the
    retrieval index, the query orchestration around the engine, and the stats
    report. The retrieval engine, the answer generator and the vector store
    are outside the model: the index is the sequence of documents handed to
    it, and what the engine answers is an input. */
module Service {
  import opened Wrappers
  import opened TextRules
  import opened Extract
  import opened LinkFilter
  import opened Crawler

  /** A metadata value: the crawler's metadata holds strings and a page number. */
  datatype MetaValue = Str(s: string) | Int(i: int)

  type Metadata = map<string, MetaValue>

  /** A supporting passage as the query engine returns it; an absent score or
      metadata attribute is `None`. */
  datatype SourceNode = SourceNode(text: string, score: Option<real>, metadata: Option<Metadata>)

  /** A source entry of a query answer. */
  datatype Source = Source(text: string, score: Option<real>, metadata: Metadata)

  /** What the query engine does with the question: raise, or answer with the
      passages it used (`hasSourceNodes` is whether the response carries any
      `source_nodes` attribute at all). */
  datatype EngineReply = EngineFailed | Reply(answer: string, hasSourceNodes: bool, nodes: seq<SourceNode>)

  datatype IngestFailure = NoDocuments | IngestEngineError

  datatype IngestResult =
    | IngestSuccess(documentCount: nat, pagesScraped: seq<CrawlRecord>, totalCharacters: nat)
    | IngestError(failure: IngestFailure, pagesScraped: seq<CrawlRecord>)
  {
    /** The `status` field of the reply. */
    function Status(): string {
      if IngestSuccess? then "success" else "error"
    }
  }

  datatype QueryFailure = NoIndex | QueryEngineError

  datatype QueryResult =
    | QuerySuccess(answer: string, sources: seq<Source>)
    | QueryError(failure: QueryFailure, sources: seq<Source>)
  {
    /** The `status` field of the reply. */
    function Status(): string {
      if QuerySuccess? then "success" else "error"
    }
  }

  datatype StatsResult =
    | StatsNoIndex
    | StatsSuccess(documentCount: nat, vectorCount: nat, pages: seq<CrawlRecord>)
    | StatsError

  /** How many characters of a passage a source shows. */
  const PreviewLength: nat := 300

  const Ellipsis: string := "..."

  /** A passage as a source shows it: whole when short enough, else its first
      300 characters and an ellipsis. */
  function Preview(t: string): (r: string)
    ensures |r| <= PreviewLength + |Ellipsis|
    ensures |t| <= PreviewLength ==> r == t
    ensures |t| > PreviewLength ==> |r| == PreviewLength + |Ellipsis| && r[..PreviewLength] == t[..PreviewLength]
    ensures |t| > PreviewLength ==> r[PreviewLength..] == Ellipsis
  {
    if |t| > PreviewLength then t[..PreviewLength] + Ellipsis else t
  }

  /** Previewing a preview changes nothing. */
  lemma PreviewIdempotent(t: string)
    ensures Preview(Preview(t)) == Preview(t)
  {
    if |t| > PreviewLength {
      var r := Preview(t);
      assert r[..PreviewLength] + Ellipsis == r;
    }
  }

  /** The source entry for a returned passage: the score is kept, absent
      metadata becomes the empty map. */
  function SourceOf(node: SourceNode): (s: Source)
    ensures s.text == Preview(node.text)
    ensures |s.text| <= PreviewLength + |Ellipsis|
    ensures s.score == node.score
    ensures node.metadata.None? ==> s.metadata == map[]
    ensures node.metadata.Some? ==> s.metadata == node.metadata.value
  {
    Source(Preview(node.text), node.score, node.metadata.GetOr(map[]))
  }

  /** The engine raises on the document at position `faultAt` when that is
      one of the `n` documents it is handed. */
  predicate Faulted(faultAt: Option<nat>, n: nat) {
    faultAt.Some? && faultAt.value < n
  }

  /** The ingestion call crawls only when it gets a non-empty URL and no documents. */
  predicate Crawls(documents: seq<Document>, url: Option<string>) {
    url.Some? && url.value != "" && documents == []
  }

  /** The link loop of an accepted page: each href, in page order, whose URL
      is in scope, unvisited and not yet queued joins the end of the queue. */
  method QueueLinks(queue: seq<string>, visited: set<string>, pageUrl: string, baseDomain: string,
                    resolve: (string, string) -> string, links: seq<string>)
    returns (urlsToVisit: seq<string>)
    ensures urlsToVisit == EnqueueLinks(queue, visited, pageUrl, baseDomain, resolve, links)
  {
    urlsToVisit := queue;
    var i := 0;
    while i < |links|
      invariant 0 <= i <= |links|
      invariant EnqueueLinks(urlsToVisit, visited, pageUrl, baseDomain, resolve, links[i..])
                == EnqueueLinks(queue, visited, pageUrl, baseDomain, resolve, links)
    {
      assert links[i..][1..] == links[i + 1..];
      var href := links[i];
      if !(StartsWith(href, "#") || (StartsWith(href, "http") && !StartsWith(href, baseDomain))) {
        var fullUrl := resolve(pageUrl, href);
        if StartsWith(fullUrl, baseDomain) && Occurs(fullUrl, PathMarker)
           && fullUrl !in visited && fullUrl !in urlsToVisit {
          urlsToVisit := urlsToVisit + [fullUrl];
        }
      }
      i := i + 1;
    }
    assert links[i..] == [];
  }

  /** The documents an ingestion call works on: the crawl's when it crawls,
      else the ones it was given. */
  function IngestInput(documents: seq<Document>, url: Option<string>, maxPages: int, web: Web): seq<Document> {
    if Crawls(documents, url) then Crawl(url.value, maxPages, web).documents else documents
  }

  class RagService {
    /** The retrieval index, as the documents it holds; `None` until one exists. */
    var index: Option<seq<Document>>
    /** The scraped-pages ledger. */
    var scrapedPages: seq<CrawlRecord>

    /** A new service: the index is whatever loading the persisted store
        produced, the ledger is empty. */
    constructor (loaded: Option<seq<Document>>)
      ensures index == loaded && scrapedPages == []
    {
      index := loaded;
      scrapedPages := [];
    }

    /** The breadth-first crawl from `startUrl`: returns the crawl's documents
        and appends its ledger records to `scrapedPages`. */
    method ScrapeDocs(startUrl: string, maxPages: int, web: Web) returns (documents: seq<Document>)
      modifies this`scrapedPages
      ensures documents == Crawl(startUrl, maxPages, web).documents
      ensures scrapedPages == old(scrapedPages) + Crawl(startUrl, maxPages, web).records
    {
      ghost var cfg := ConfigFor(startUrl, maxPages, web);
      ghost var ledger := scrapedPages;
      ghost var records: seq<CrawlRecord> := [];
      ghost var order: seq<string> := [];
      documents := [];
      var visitedUrls: set<string> := {};
      var urlsToVisit := [startUrl];
      var baseDomain := web.domainOf(startUrl);
      var pageCount := 0;
      assert cfg.fetch == web.fetch && cfg.resolve == web.resolve;
      assert cfg.baseDomain == baseDomain && cfg.maxPages == maxPages;
      ghost var target := Crawl(startUrl, maxPages, web);
      while urlsToVisit != [] && pageCount < maxPages
        invariant scrapedPages == ledger + records
        invariant Run(CrawlState(urlsToVisit, visitedUrls, pageCount, documents, records, order), cfg) == target
        decreases maxPages - pageCount, |urlsToVisit|
      {
        ghost var before := CrawlState(urlsToVisit, visitedUrls, pageCount, documents, records, order);
        var url := urlsToVisit[0];
        urlsToVisit := urlsToVisit[1..];
        if url in visitedUrls {
          TurnSkip(before, cfg);
          continue;
        }
        visitedUrls := visitedUrls + {url};
        pageCount := pageCount + 1;
        order := order + [url];
        var doc;
        ghost var rest := urlsToVisit;
        doc, urlsToVisit := HarvestPage(url, pageCount, urlsToVisit, visitedUrls, baseDomain, maxPages, web);
        TurnVisit(before, cfg, url, rest, visitedUrls, pageCount, doc, urlsToVisit);
        if doc.Some? {
          documents := documents + [doc.value];
        }
        AddRecordAppend(ledger, records, doc);
        records := AddRecord(records, doc);
      }
      ghost var final := CrawlState(urlsToVisit, visitedUrls, pageCount, documents, records, order);
      assert Run(final, cfg) == final;
    }

    /** The guarded part of one turn of the crawl loop, for the page at `url`
        already counted as the `pageCount`-th visit: an accepted page yields
        its document, appends its ledger record and, while budget remains,
        queues its links behind `rest`; any other page leaves everything as it
        was. */
    method HarvestPage(url: string, pageCount: int, rest: seq<string>, visitedUrls: set<string>,
                       baseDomain: string, maxPages: int, web: Web)
      returns (doc: Option<Document>, urlsToVisit: seq<string>)
      modifies this`scrapedPages
      ensures Harvested(PageOutcome(web.fetch(url), url), url, pageCount, rest, visitedUrls,
                        maxPages, baseDomain, web.resolve, doc, urlsToVisit)
      ensures scrapedPages == AddRecord(old(scrapedPages), doc)
    {
      var outcome := PageOutcome(web.fetch(url), url);
      urlsToVisit := rest;
      if !outcome.Accepted? {
        return None, urlsToVisit;
      }
      doc := Some(Document(outcome.text, url, outcome.title, pageCount));
      scrapedPages := scrapedPages + [CrawlRecord(url, outcome.title, |outcome.text|, pageCount)];
      if pageCount < maxPages {
        urlsToVisit := QueueLinks(urlsToVisit, visitedUrls, url, baseDomain, web.resolve, outcome.links);
      }
    }

    /** Inserting documents one at a time into an existing index: a fault at
        position `faultAt` stops the loop with the earlier documents inserted. */
    method InsertEach(docs: seq<Document>, faultAt: Option<nat>) returns (faulted: bool)
      requires index.Some?
      modifies this`index
      ensures faulted <==> Faulted(faultAt, |docs|)
      ensures index == Some(old(index).value + (if faulted then docs[..faultAt.value] else docs))
    {
      ghost var prior := index.value;
      assert prior + docs[..0] == prior;
      var i := 0;
      while i < |docs|
        invariant 0 <= i <= |docs|
        invariant index == Some(prior + docs[..i])
        invariant faultAt.Some? ==> faultAt.value >= i
      {
        if faultAt == Some(i) {
          return true;
        }
        assert prior + docs[..i + 1] == (prior + docs[..i]) + [docs[i]];
        index := Some(index.value + [docs[i]]);
        i := i + 1;
      }
      assert docs[..i] == docs;
      return false;
    }

    /** Ingestion: reset the ledger, crawl when asked to, refuse an empty
        input, then build the index or insert into it one document at a time.
        An engine fault ends the call with the ledger built so far; a build
        that faults leaves no index, inserts before the fault stay. */
    method IngestDocuments(documents: seq<Document>, url: Option<string>, maxPages: int, web: Web,
                           faultAt: Option<nat>)
      returns (result: IngestResult)
      modifies this
      ensures scrapedPages == (if Crawls(documents, url) then Crawl(url.value, maxPages, web).records else [])
      ensures var docs := IngestInput(documents, url, maxPages, web);
        && (docs == [] ==> result == IngestError(NoDocuments, []) && index == old(index))
        && (docs != [] && Faulted(faultAt, |docs|) ==>
              && result == IngestError(IngestEngineError, scrapedPages)
              && index == (if old(index).None? then None else Some(old(index).value + docs[..faultAt.value])))
        && (docs != [] && !Faulted(faultAt, |docs|) ==>
              && result == IngestSuccess(|docs|, scrapedPages, TotalCharacters(docs))
              && index == Some(old(index).GetOr([]) + docs))
      ensures var docs := IngestInput(documents, url, maxPages, web);
        result.Status() == (if docs != [] && !Faulted(faultAt, |docs|) then "success" else "error")
      ensures Crawls(documents, url) && result.IngestSuccess? ==>
        && result.totalCharacters == LedgerCharacters(result.pagesScraped)
        && result.documentCount == |result.pagesScraped|
    {
      scrapedPages := [];
      var docs := documents;
      if url.Some? && url.value != "" && documents == [] {
        docs := ScrapeDocs(url.value, maxPages, web);
        ghost var f := Crawl(url.value, maxPages, web);
        assert LedgerCharacters(f.records) == TotalCharacters(f.documents) && |f.records| == |f.documents| by {
          CrawlSpec(url.value, maxPages, web);
        }
      }
      assert docs == IngestInput(documents, url, maxPages, web);
      if docs == [] {
        return IngestError(NoDocuments, []);
      }
      var faulted := false;
      if index.None? {
        faulted := faultAt.Some? && faultAt.value < |docs|;
        if !faulted {
          index := Some(docs);
          assert old(index).GetOr([]) + docs == docs;
        }
      } else {
        faulted := InsertEach(docs, faultAt);
      }
      if faulted {
        return IngestError(IngestEngineError, scrapedPages);
      }
      return IngestSuccess(|docs|, scrapedPages, TotalCharacters(docs));
    }

    /** A query: without an index it fails at once and asks the engine
        nothing; otherwise the engine's answer comes back with one source per
        returned passage, in order. That the engine is not consulted without an
        index is carried by the result `QueryError(NoIndex, [])`, which does
        not depend on `reply`; the ghost flag `engineAsked` only records which
        branch was taken. */
    method Query(question: string, topK: int, reply: EngineReply)
      returns (result: QueryResult, ghost engineAsked: bool)
      ensures engineAsked <==> index.Some?
      ensures result.Status() == "success" <==> index.Some? && reply.Reply?
      ensures index.None? ==> result == QueryError(NoIndex, [])
      ensures index.Some? && reply.EngineFailed? ==> result == QueryError(QueryEngineError, [])
      ensures index.Some? && reply.Reply? ==>
        && result.QuerySuccess? && result.answer == reply.answer
        && |result.sources| == (if reply.hasSourceNodes then |reply.nodes| else 0)
        && forall i :: 0 <= i < |result.sources| ==> result.sources[i] == SourceOf(reply.nodes[i])
      ensures forall s :: s in result.sources ==> |s.text| <= PreviewLength + |Ellipsis|
    {
      if index.None? {
        return QueryError(NoIndex, []), false;
      }
      engineAsked := true;
      if reply.EngineFailed? {
        return QueryError(QueryEngineError, []), engineAsked;
      }
      var sources: seq<Source> := [];
      if reply.hasSourceNodes {
        var i := 0;
        while i < |reply.nodes|
          invariant 0 <= i <= |reply.nodes|
          invariant |sources| == i
          invariant forall j :: 0 <= j < i ==> sources[j] == SourceOf(reply.nodes[j])
        {
          var node := reply.nodes[i];
          sources := sources + [Source(Preview(node.text), node.score, node.metadata.GetOr(map[]))];
          i := i + 1;
        }
      }
      result := QuerySuccess(reply.answer, sources);
    }

    /** The stats report: `no_index` without an index; otherwise the ledger's
        size, the vector store's count and the ledger, or an error when the
        count raises (`vectorCount` is `None`). */
    function GetStats(vectorCount: Option<nat>): (r: StatsResult)
      reads this
      ensures r.StatsNoIndex? <==> index.None?
      ensures r.StatsError? <==> index.Some? && vectorCount.None?
      ensures r.StatsSuccess? ==>
        r.documentCount == |scrapedPages| && r.pages == scrapedPages && vectorCount == Some(r.vectorCount)
    {
      if index.None? then StatsNoIndex
      else match vectorCount
        case None => StatsError
        case Some(n) => StatsSuccess(|scrapedPages|, n, scrapedPages)
    }
  }
}
