/** The breadth-first crawl as a specification: the state of the crawl loop,
    one turn of the loop, the loop run to its end, the invariant every turn
    keeps, and what the finished crawl guarantees. */
module Crawler {
  import opened Wrappers
  import opened TextRules
  import opened Extract
  import opened LinkFilter

  /** An ingestible unit: the page text and its `source`, `title` and
      `page_number` metadata. */
  datatype Document = Document(text: string, source: string, title: string, pageNumber: int)

  /** One entry of the scraped-pages ledger. */
  datatype CrawlRecord = CrawlRecord(url: string, title: string, length: int, pageNumber: int)

  /** The ledger entry recorded alongside a document. */
  function RecordOf(d: Document): CrawlRecord {
    CrawlRecord(d.source, d.title, |d.text|, d.pageNumber)
  }

  /** What the crawl cannot compute itself: the HTTP GET and parse of a URL,
      `urljoin`, and the `scheme://netloc` that `urlparse` gives a URL. */
  datatype Web = Web(fetch: string -> Fetch, resolve: (string, string) -> string, domainOf: string -> string)

  /** The fixed parameters of one crawl. */
  datatype Config = Config(maxPages: int, baseDomain: string, fetch: string -> Fetch,
                           resolve: (string, string) -> string)

  function ConfigFor(seed: string, maxPages: int, web: Web): Config {
    Config(maxPages, web.domainOf(seed), web.fetch, web.resolve)
  }

  /** The loop's variables: the frontier, the visited set, the page counter,
      the documents and ledger built so far, and (for the proofs) the visited
      URLs in the order they were visited. */
  datatype CrawlState = CrawlState(
    queue: seq<string>,
    visited: set<string>,
    pageCount: int,
    documents: seq<Document>,
    records: seq<CrawlRecord>,
    order: seq<string>)

  /** The state on entry: only the seed is queued. */
  function Start(seed: string): CrawlState {
    CrawlState([seed], {}, 0, [], [], [])
  }

  /** The loop condition: something is queued and the page budget is not spent. */
  predicate Running(st: CrawlState, maxPages: int) {
    st.queue != [] && st.pageCount < maxPages
  }

  /** Visiting the head of the frontier, given what its page yielded: mark it
      visited and count it; when the page is accepted, append its document
      and ledger record and, while budget remains, its links. */
  function Visit(st: CrawlState, cfg: Config, o: Outcome): (r: CrawlState)
    requires st.queue != []
    ensures r.pageCount == st.pageCount + 1
  {
    var url := st.queue[0];
    var rest := st.queue[1..];
    var visited := st.visited + {url};
    var n := st.pageCount + 1;
    var counted := st.(queue := rest, visited := visited, pageCount := n, order := st.order + [url]);
    match o
    case Accepted(text, title, links) =>
      var doc := Document(text, url, title, n);
      counted.(
        documents := st.documents + [doc],
        records := st.records + [RecordOf(doc)],
        queue := if n < cfg.maxPages then EnqueueLinks(rest, visited, url, cfg.baseDomain, cfg.resolve, links)
                 else rest)
    case _ => counted
  }

  /** One turn of the crawl loop: dequeue the head, skip it if visited, else visit it. */
  function Step(st: CrawlState, cfg: Config): (r: CrawlState)
    requires Running(st, cfg.maxPages)
    ensures r.pageCount == st.pageCount + 1 || (r.pageCount == st.pageCount && |r.queue| < |st.queue|)
  {
    var url := st.queue[0];
    if url in st.visited then st.(queue := st.queue[1..])
    else Visit(st, cfg, PageOutcome(cfg.fetch(url), url))
  }

  /** The crawl loop run until it stops; it stops only with an empty frontier
      or a spent budget. */
  function Run(st: CrawlState, cfg: Config): (r: CrawlState)
    ensures !Running(r, cfg.maxPages)
    decreases cfg.maxPages - st.pageCount, |st.queue|
  {
    if !Running(st, cfg.maxPages) then st else Run(Step(st, cfg), cfg)
  }

  /** The whole crawl from a seed URL. */
  function Crawl(seed: string, maxPages: int, web: Web): CrawlState {
    Run(Start(seed), ConfigFor(seed, maxPages, web))
  }

  /** Documents and ledger grow together: the i-th record describes the i-th document. */
  predicate Lockstep(docs: seq<Document>, recs: seq<CrawlRecord>) {
    |docs| == |recs| && forall i :: 0 <= i < |docs| ==> recs[i] == RecordOf(docs[i])
  }

  predicate StrictlyIncreasing(docs: seq<Document>) {
    forall i, j :: 0 <= i < j < |docs| ==> docs[i].pageNumber < docs[j].pageNumber
  }

  /** A document as the crawler emits it: long, normalised text and a stripped title. */
  predicate WellFormed(d: Document) {
    |d.text| > MinTextLength && IsNormal(d.text) && IsStripped(d.title)
  }

  /** The counter counts visits and the visited set is the set of visits. */
  ghost predicate VisitsInv(st: CrawlState, cfg: Config) {
    && st.pageCount == |st.order|
    && NoDup(st.order)
    && (forall u :: u in st.visited <==> u in st.order)
    && (st.pageCount <= cfg.maxPages || st.pageCount == 0)
  }

  /** The frontier is duplicate-free, unvisited, and in scope past the seed. */
  ghost predicate FrontierInv(st: CrawlState, cfg: Config, seed: string) {
    && NoDup(st.queue)
    && (forall u :: u in st.queue ==> u !in st.visited)
    && (forall u :: u in st.queue ==> u == seed || InScope(u, cfg.baseDomain))
  }

  /** Documents and ledger match, and each document is numbered by its visit. */
  ghost predicate DocumentsOk(docs: seq<Document>, recs: seq<CrawlRecord>, order: seq<string>) {
    && Lockstep(docs, recs)
    && (forall d :: d in docs ==> WellFormed(d))
    && (forall d :: d in docs ==> 1 <= d.pageNumber <= |order| && order[d.pageNumber - 1] == d.source)
    && StrictlyIncreasing(docs)
  }

  ghost predicate DocumentsInv(st: CrawlState) {
    DocumentsOk(st.documents, st.records, st.order)
  }

  /** The invariant of the crawl loop. */
  ghost predicate Inv(st: CrawlState, cfg: Config, seed: string) {
    VisitsInv(st, cfg) && FrontierInv(st, cfg, seed) && DocumentsInv(st)
  }

  lemma StartInv(seed: string, cfg: Config)
    ensures Inv(Start(seed), cfg, seed)
  {
  }

  /** The state after visiting the head of the frontier, by outcome. */
  lemma VisitShape(st: CrawlState, cfg: Config, o: Outcome)
    requires st.queue != []
    ensures var r, url, n := Visit(st, cfg, o), st.queue[0], st.pageCount + 1;
      && r.pageCount == n
      && r.visited == st.visited + {url}
      && r.order == st.order + [url]
      && (!o.Accepted? ==> r.documents == st.documents && r.records == st.records && r.queue == st.queue[1..])
      && (o.Accepted? ==>
            && r.documents == st.documents + [Document(o.text, url, o.title, n)]
            && r.records == st.records + [RecordOf(Document(o.text, url, o.title, n))]
            && r.queue == if n < cfg.maxPages
                          then EnqueueLinks(st.queue[1..], st.visited + {url}, url, cfg.baseDomain, cfg.resolve, o.links)
                          else st.queue[1..])
  {
  }

  lemma StepShape(st: CrawlState, cfg: Config)
    requires Running(st, cfg.maxPages) && st.queue[0] !in st.visited
    ensures var r, url := Step(st, cfg), st.queue[0];
      var o, n := PageOutcome(cfg.fetch(url), url), st.pageCount + 1;
      && r == Visit(st, cfg, o)
      && r.pageCount == n
      && r.visited == st.visited + {url}
      && r.order == st.order + [url]
      && (!o.Accepted? ==> r.documents == st.documents && r.records == st.records && r.queue == st.queue[1..])
      && (o.Accepted? ==>
            && r.documents == st.documents + [Document(o.text, url, o.title, n)]
            && r.records == st.records + [RecordOf(Document(o.text, url, o.title, n))]
            && r.queue == if n < cfg.maxPages
                          then EnqueueLinks(st.queue[1..], st.visited + {url}, url, cfg.baseDomain, cfg.resolve, o.links)
                          else st.queue[1..])
  {
    var url := st.queue[0];
    VisitShape(st, cfg, PageOutcome(cfg.fetch(url), url));
  }

  /** What visiting `url` as the `n`-th page yields, given the page's outcome:
      an accepted page gives its document and, while budget remains, the
      frontier `rest` extended by its links; any other page gives no
      document and leaves `rest` as it is. */
  predicate Harvested(o: Outcome, url: string, n: int, rest: seq<string>, visited: set<string>,
                      maxPages: int, baseDomain: string, resolve: (string, string) -> string,
                      doc: Option<Document>, queue: seq<string>)
  {
    if o.Accepted? then
      && doc == Some(Document(o.text, url, o.title, n))
      && queue == (if n < maxPages then EnqueueLinks(rest, visited, url, baseDomain, resolve, o.links) else rest)
    else doc == None && queue == rest
  }

  /** The documents, or the ledger, after a visit that harvested `doc`. */
  function AddDocument(docs: seq<Document>, doc: Option<Document>): seq<Document> {
    if doc.Some? then docs + [doc.value] else docs
  }

  function AddRecord(recs: seq<CrawlRecord>, doc: Option<Document>): seq<CrawlRecord> {
    if doc.Some? then recs + [RecordOf(doc.value)] else recs
  }

  lemma AddRecordAppend(ledger: seq<CrawlRecord>, recs: seq<CrawlRecord>, doc: Option<Document>)
    ensures ledger + AddRecord(recs, doc) == AddRecord(ledger + recs, doc)
  {
    if doc.Some? {
      assert ledger + (recs + [RecordOf(doc.value)]) == (ledger + recs) + [RecordOf(doc.value)];
    }
  }

  /** A turn that skips a visited head leaves the rest of the crawl as it was. */
  lemma TurnSkip(st: CrawlState, cfg: Config)
    requires Running(st, cfg.maxPages) && st.queue[0] in st.visited
    ensures Run(st, cfg) == Run(st.(queue := st.queue[1..]), cfg)
  {
  }

  /** A turn that visits an unvisited head, given what the page harvested,
      leaves the rest of the crawl as it was. */
  lemma TurnVisit(st: CrawlState, cfg: Config, url: string, rest: seq<string>, visited: set<string>, n: int,
                  doc: Option<Document>, queue: seq<string>)
    requires Running(st, cfg.maxPages) && st.queue[0] !in st.visited
    requires url == st.queue[0] && rest == st.queue[1..] && visited == st.visited + {url} && n == st.pageCount + 1
    requires Harvested(PageOutcome(cfg.fetch(url), url), url, n, rest, visited,
                       cfg.maxPages, cfg.baseDomain, cfg.resolve, doc, queue)
    ensures Run(st, cfg) == Run(CrawlState(queue, visited, n, AddDocument(st.documents, doc),
                                           AddRecord(st.records, doc), st.order + [url]), cfg)
  {
    StepShape(st, cfg);
  }

  /** Visiting the unvisited head keeps the visit bookkeeping right. */
  lemma StepVisits(st: CrawlState, cfg: Config, seed: string)
    requires Inv(st, cfg, seed) && Running(st, cfg.maxPages)
    ensures st.queue[0] !in st.visited
    ensures VisitsInv(Step(st, cfg), cfg)
  {
    var url := st.queue[0];
    assert url in st.queue;
    StepShape(st, cfg);
    var r := Step(st, cfg);
    assert url !in st.order;
    assert NoDup(r.order);
  }

  /** The frontier invariant, stated over a queue and a visited set. */
  ghost predicate FrontierOk(queue: seq<string>, visited: set<string>, baseDomain: string, seed: string) {
    && NoDup(queue)
    && (forall u :: u in queue ==> u !in visited)
    && (forall u :: u in queue ==> u == seed || InScope(u, baseDomain))
  }

  /** Dequeuing the head and marking it visited keeps the rest of the frontier valid. */
  lemma DequeueFrontier(st: CrawlState, cfg: Config, seed: string)
    requires FrontierInv(st, cfg, seed) && st.queue != []
    ensures FrontierOk(st.queue[1..], st.visited + {st.queue[0]}, cfg.baseDomain, seed)
  {
    var rest := st.queue[1..];
    forall u | u in rest
      ensures u != st.queue[0]
    {
      var i :| 0 <= i < |rest| && rest[i] == u;
      assert st.queue[i + 1] == u;
    }
  }

  /** The link loop keeps a frontier valid and only appends to it. */
  lemma EnqueueFrontier(rest: seq<string>, visited: set<string>, url: string, baseDomain: string,
                        resolve: (string, string) -> string, links: seq<string>, seed: string)
    requires FrontierOk(rest, visited, baseDomain, seed)
    ensures FrontierOk(EnqueueLinks(rest, visited, url, baseDomain, resolve, links), visited, baseDomain, seed)
    ensures rest <= EnqueueLinks(rest, visited, url, baseDomain, resolve, links)
  {
    var q := EnqueueLinks(rest, visited, url, baseDomain, resolve, links);
    EnqueueLinksSpec(rest, visited, url, baseDomain, resolve, links);
    forall u | u in q
      ensures u !in visited && (u == seed || InScope(u, baseDomain))
    {
      var i :| 0 <= i < |q| && q[i] == u;
      if i < |rest| {
        assert rest[i] == u;
      }
    }
  }

  /** Visiting the head keeps the frontier invariant, whatever the page yielded. */
  lemma VisitFrontier(st: CrawlState, cfg: Config, seed: string, o: Outcome)
    requires FrontierInv(st, cfg, seed) && st.queue != []
    ensures FrontierInv(Visit(st, cfg, o), cfg, seed)
  {
    var url := st.queue[0];
    var rest := st.queue[1..];
    var visited := st.visited + {url};
    VisitShape(st, cfg, o);
    var r := Visit(st, cfg, o);
    DequeueFrontier(st, cfg, seed);
    if o.Accepted? && st.pageCount + 1 < cfg.maxPages {
      EnqueueFrontier(rest, visited, url, cfg.baseDomain, cfg.resolve, o.links, seed);
      assert r.queue == EnqueueLinks(rest, visited, url, cfg.baseDomain, cfg.resolve, o.links);
    } else {
      assert r.queue == rest;
    }
    assert FrontierOk(r.queue, r.visited, cfg.baseDomain, seed);
  }

  /** Visiting the head only extends the discovery log (the visited URLs
      followed by the frontier). */
  lemma VisitLog(st: CrawlState, cfg: Config, o: Outcome)
    requires st.queue != []
    ensures st.order + st.queue <= Visit(st, cfg, o).order + Visit(st, cfg, o).queue
  {
    var url := st.queue[0];
    var rest := st.queue[1..];
    VisitShape(st, cfg, o);
    var r := Visit(st, cfg, o);
    if o.Accepted? && st.pageCount + 1 < cfg.maxPages {
      EnqueueLinksSpec(rest, st.visited + {url}, url, cfg.baseDomain, cfg.resolve, o.links);
    }
    assert rest <= r.queue;
    assert st.order + st.queue == r.order + rest;
  }

  /** Another visit leaves the documents' visit numbers pointing at the same URLs. */
  lemma ExtendOrder(docs: seq<Document>, recs: seq<CrawlRecord>, order: seq<string>, url: string)
    requires DocumentsOk(docs, recs, order)
    ensures DocumentsOk(docs, recs, order + [url])
  {
    forall d | d in docs
      ensures (order + [url])[d.pageNumber - 1] == d.source
    {
      assert (order + [url])[d.pageNumber - 1] == order[d.pageNumber - 1];
    }
  }

  /** A well-formed document numbered by the latest visit keeps the documents
      and the ledger in step. */
  lemma AppendDocument(docs: seq<Document>, recs: seq<CrawlRecord>, order: seq<string>, doc: Document)
    requires DocumentsOk(docs, recs, order) && order != []
    requires WellFormed(doc) && doc.pageNumber == |order| && doc.source == order[|order| - 1]
    requires forall d :: d in docs ==> d.pageNumber < |order|
    ensures DocumentsOk(docs + [doc], recs + [RecordOf(doc)], order)
  {
    var ds := docs + [doc];
    assert forall d :: d in ds ==> d in docs || d == doc;
    forall i, j | 0 <= i < j < |ds|
      ensures ds[i].pageNumber < ds[j].pageNumber
    {
      if j == |docs| {
        assert ds[i] in docs;
      }
    }
    assert Lockstep(ds, recs + [RecordOf(doc)]);
  }

  /** Visiting the head keeps documents and ledger in step, given that an
      accepted page is well formed. */
  lemma VisitDocuments(st: CrawlState, cfg: Config, o: Outcome)
    requires DocumentsInv(st) && st.queue != [] && st.pageCount == |st.order|
    requires o.Accepted? ==> WellFormed(Document(o.text, st.queue[0], o.title, st.pageCount + 1))
    ensures DocumentsInv(Visit(st, cfg, o))
  {
    var url := st.queue[0];
    VisitShape(st, cfg, o);
    var r := Visit(st, cfg, o);
    ExtendOrder(st.documents, st.records, st.order, url);
    if o.Accepted? {
      var doc := Document(o.text, url, o.title, st.pageCount + 1);
      AppendDocument(st.documents, st.records, st.order + [url], doc);
      assert r.documents == st.documents + [doc] && r.records == st.records + [RecordOf(doc)];
    }
    assert DocumentsOk(r.documents, r.records, r.order);
  }

  lemma StepFrontier(st: CrawlState, cfg: Config, seed: string)
    requires Inv(st, cfg, seed) && Running(st, cfg.maxPages) && st.queue[0] !in st.visited
    ensures FrontierInv(Step(st, cfg), cfg, seed)
    ensures st.order + st.queue <= Step(st, cfg).order + Step(st, cfg).queue
  {
    StepShape(st, cfg);
    var url := st.queue[0];
    VisitFrontier(st, cfg, seed, PageOutcome(cfg.fetch(url), url));
    VisitLog(st, cfg, PageOutcome(cfg.fetch(url), url));
  }

  lemma StepDocuments(st: CrawlState, cfg: Config, seed: string)
    requires Inv(st, cfg, seed) && Running(st, cfg.maxPages) && st.queue[0] !in st.visited
    ensures DocumentsInv(Step(st, cfg))
  {
    StepShape(st, cfg);
    var url := st.queue[0];
    VisitDocuments(st, cfg, PageOutcome(cfg.fetch(url), url));
  }

  /** One turn from a state satisfying the invariant: the head of the
      frontier is never already visited, so every turn visits a page and
      spends one unit of budget; a page not accepted adds no document, no
      record and no link; links are harvested only from an accepted page
      while budget remains; the frontier is only consumed at its head and
      extended at its tail. */
  lemma StepSpec(st: CrawlState, cfg: Config, seed: string)
    requires Inv(st, cfg, seed) && Running(st, cfg.maxPages)
    ensures var r, url := Step(st, cfg), st.queue[0];
      && Inv(r, cfg, seed)
      && url !in st.visited
      && r.pageCount == st.pageCount + 1
      && r.visited == st.visited + {url}
      && r.order == st.order + [url]
      && st.order + st.queue <= r.order + r.queue
    ensures var r, url := Step(st, cfg), st.queue[0];
      var o := PageOutcome(cfg.fetch(url), url);
      && (!o.Accepted? ==> r.documents == st.documents && r.records == st.records && r.queue == st.queue[1..])
      && (o.Accepted? ==>
            r.documents == st.documents + [Document(o.text, url, o.title, r.pageCount)]
            && r.records == st.records + [CrawlRecord(url, o.title, |o.text|, r.pageCount)])
      && (r.pageCount >= cfg.maxPages ==> r.queue == st.queue[1..])
  {
    StepVisits(st, cfg, seed);
    StepShape(st, cfg);
    StepFrontier(st, cfg, seed);
    StepDocuments(st, cfg, seed);
  }

  /** The invariant holds when the crawl stops; along the way the visit order
      only grows, and the visit order followed by the frontier, the log of
      discovered URLs, is only appended to: URLs are visited in the order
      they were discovered. */
  lemma {:induction false} RunSpec(st: CrawlState, cfg: Config, seed: string)
    requires Inv(st, cfg, seed)
    ensures var r := Run(st, cfg);
      && Inv(r, cfg, seed)
      && st.order <= r.order
      && st.order + st.queue <= r.order + r.queue
      && st.documents <= r.documents
      && st.records <= r.records
    decreases cfg.maxPages - st.pageCount, |st.queue|
  {
    if Running(st, cfg.maxPages) {
      var s1 := Step(st, cfg);
      StepSpec(st, cfg, seed);
      RunSpec(s1, cfg, seed);
      assert st.documents <= s1.documents;
      assert st.records <= s1.records;
    }
  }

  /** Every emitted document comes from a different URL. */
  lemma SourcesUnique(st: CrawlState, cfg: Config, seed: string)
    requires Inv(st, cfg, seed)
    ensures forall i, j :: 0 <= i < j < |st.documents| ==> st.documents[i].source != st.documents[j].source
  {
    forall i, j | 0 <= i < j < |st.documents|
      ensures st.documents[i].source != st.documents[j].source
    {
      var a, b := st.documents[i], st.documents[j];
      assert a in st.documents && b in st.documents;
      assert a.pageNumber < b.pageNumber;
      assert st.order[a.pageNumber - 1] != st.order[b.pageNumber - 1];
    }
  }

  /** The sum of the lengths of the documents' texts. */
  function TotalCharacters(docs: seq<Document>): (n: nat)
    ensures docs == [] ==> n == 0
  {
    if docs == [] then 0 else |docs[0].text| + TotalCharacters(docs[1..])
  }

  /** The character total of two batches of documents is the sum of their totals. */
  lemma {:induction false} TotalCharactersAppend(a: seq<Document>, b: seq<Document>)
    ensures TotalCharacters(a + b) == TotalCharacters(a) + TotalCharacters(b)
    decreases |a|
  {
    if a == [] {
      assert a + b == b;
    } else {
      TotalCharactersAppend(a[1..], b);
      assert (a + b)[0] == a[0] && (a + b)[1..] == a[1..] + b;
    }
  }

  /** The sum of the ledger's `length` fields. */
  function LedgerCharacters(recs: seq<CrawlRecord>): int {
    if recs == [] then 0 else recs[0].length + LedgerCharacters(recs[1..])
  }

  /** For crawled documents, the character total is the total of the ledger. */
  lemma {:induction false} LedgerCharactersMatch(docs: seq<Document>, recs: seq<CrawlRecord>)
    requires Lockstep(docs, recs)
    ensures LedgerCharacters(recs) == TotalCharacters(docs)
  {
    if docs != [] {
      assert Lockstep(docs[1..], recs[1..]) by {
        forall i | 0 <= i < |docs[1..]|
          ensures recs[1..][i] == RecordOf(docs[1..][i])
        {
          assert recs[1..][i] == recs[i + 1] && docs[1..][i] == docs[i + 1];
        }
      }
      LedgerCharactersMatch(docs[1..], recs[1..]);
      assert recs[0] == RecordOf(docs[0]);
    }
  }

  /** What a finished crawl guarantees: no more pages visited than the budget
      allows and the counter equal to the number of distinct URLs visited; the
      loop stopped on an empty frontier or a spent budget; the frontier left
      over is duplicate-free and unvisited; documents and ledger match one to
      one; every document is well formed, from a distinct URL, numbered by
      its visit, with strictly increasing numbers; the seed is visited first
      (unless the budget is not positive); and the reported character totals
      agree. */
  lemma CrawlSpec(seed: string, maxPages: int, web: Web)
    ensures var f, cfg := Crawl(seed, maxPages, web), ConfigFor(seed, maxPages, web);
      && 0 <= f.pageCount == |f.visited| == |f.order|
      && (maxPages >= 0 ==> f.pageCount <= maxPages)
      && (maxPages <= 0 ==> f.pageCount == 0 && f.documents == [])
      && !Running(f, maxPages)
      && NoDup(f.queue) && (forall u :: u in f.queue ==> u !in f.visited)
      && (forall u :: u in f.queue ==> u == seed || InScope(u, cfg.baseDomain))
      && Lockstep(f.documents, f.records)
      && (forall d :: d in f.documents ==> WellFormed(d) && d.source in f.visited)
      && (forall i, j :: 0 <= i < j < |f.documents| ==> f.documents[i].source != f.documents[j].source)
      && StrictlyIncreasing(f.documents)
      && (forall d :: d in f.documents ==> 1 <= d.pageNumber <= f.pageCount && f.order[d.pageNumber - 1] == d.source)
      && (maxPages > 0 ==> f.order != [] && f.order[0] == seed)
      && LedgerCharacters(f.records) == TotalCharacters(f.documents)
  {
    var cfg := ConfigFor(seed, maxPages, web);
    var s0 := Start(seed);
    var f := Run(s0, cfg);
    StartInv(seed, cfg);
    RunSpec(s0, cfg, seed);
    SourcesUnique(f, cfg, seed);
    LedgerCharactersMatch(f.documents, f.records);
    assert |f.visited| == |f.order| by {
      NoDupCard(f.order, f.visited);
    }
    forall d | d in f.documents
      ensures d.source in f.visited
    {
      assert f.order[d.pageNumber - 1] in f.order;
    }
    if maxPages > 0 {
      assert Running(s0, cfg.maxPages);
      var s1 := Step(s0, cfg);
      StepSpec(s0, cfg, seed);
      RunSpec(s1, cfg, seed);
      assert Run(s0, cfg) == Run(s1, cfg);
      assert s1.order == [seed];
    } else {
      assert f == s0;
    }
  }

  /** A duplicate-free sequence has as many elements as its set of elements. */
  lemma {:induction false} NoDupCard(s: seq<string>, elems: set<string>)
    requires NoDup(s) && forall u :: u in elems <==> u in s
    ensures |elems| == |s|
  {
    if s != [] {
      var last := s[|s| - 1];
      var init := s[..|s| - 1];
      assert NoDup(init);
      assert forall u :: u in elems - {last} <==> u in init by {
        forall u
          ensures u in elems - {last} <==> u in init
        {
          if u in init {
            var i :| 0 <= i < |init| && init[i] == u;
            assert s[i] == u;
          }
          if u in s && u != last {
            var i :| 0 <= i < |s| && s[i] == u;
            assert i < |s| - 1;
            assert init[i] == u;
          }
        }
      }
      NoDupCard(init, elems - {last});
    }
  }
}
