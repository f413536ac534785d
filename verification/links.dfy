/** The rule that decides which links of an accepted page join the frontier. */
module LinkFilter {
  import opened Wrappers
  import opened TextRules

  /** The path marker that scopes the crawl to the LangGraph section. */
  const PathMarker: string := "/langgraph/"

  predicate StartsWith(s: string, prefix: string) {
    |prefix| <= |s| && s[..|prefix|] == prefix
  }

  /** No URL appears twice. */
  predicate NoDup(s: seq<string>) {
    forall i, j :: 0 <= i < j < |s| ==> s[i] != s[j]
  }

  /** A URL the crawl may follow: under the base domain and inside the
      section (`re.search` of the marker, which has no metacharacters, is a
      substring test). */
  predicate InScope(url: string, baseDomain: string) {
    StartsWith(url, baseDomain) && Occurs(url, PathMarker)
  }

  /** The absolute URL an href leads to, or `None` for a fragment-only href
      and for an absolute `http...` href outside the base domain. `resolve` is
      `urljoin`, which this model leaves uninterpreted. */
  function Candidate(href: string, pageUrl: string, baseDomain: string,
                     resolve: (string, string) -> string): (r: Option<string>)
    ensures StartsWith(href, "#") ==> r.None?
    ensures StartsWith(href, "http") && !StartsWith(href, baseDomain) ==> r.None?
    ensures r.Some? ==> r.value == resolve(pageUrl, href)
    ensures r.None? ==> StartsWith(href, "#") || (StartsWith(href, "http") && !StartsWith(href, baseDomain))
  {
    if StartsWith(href, "#") || (StartsWith(href, "http") && !StartsWith(href, baseDomain)) then None
    else Some(resolve(pageUrl, href))
  }

  /** One step of the link loop: append the link's URL when it is in scope,
      not yet visited and not yet queued. */
  function Admit(queue: seq<string>, visited: set<string>, href: string, pageUrl: string,
                 baseDomain: string, resolve: (string, string) -> string): (r: seq<string>)
    ensures queue <= r && |r| <= |queue| + 1
    ensures var c := Candidate(href, pageUrl, baseDomain, resolve);
      |r| == |queue| + 1 <==> c.Some? && InScope(c.value, baseDomain) && c.value !in visited && c.value !in queue
    ensures |r| == |queue| + 1 ==> r[|queue|] == Candidate(href, pageUrl, baseDomain, resolve).value
  {
    match Candidate(href, pageUrl, baseDomain, resolve)
    case None => queue
    case Some(url) =>
      if InScope(url, baseDomain) && url !in visited && url !in queue then queue + [url] else queue
  }

  /** The link loop over every href of an accepted page, in page order. */
  function EnqueueLinks(queue: seq<string>, visited: set<string>, pageUrl: string, baseDomain: string,
                        resolve: (string, string) -> string, links: seq<string>): (r: seq<string>)
    ensures queue <= r
    ensures forall i :: |queue| <= i < |r| ==> InScope(r[i], baseDomain) && r[i] !in visited
    decreases |links|
  {
    if links == [] then queue
    else EnqueueLinks(Admit(queue, visited, links[0], pageUrl, baseDomain, resolve),
                      visited, pageUrl, baseDomain, resolve, links[1..])
  }

  /** The frontier only grows at its tail; what is added is in scope, neither
      visited nor already queued, free of duplicates, and comes from an href of
      the page that is not an anchor or an external link. Conversely every such
      href whose URL is in scope and unvisited ends up queued. */
  lemma {:induction false} EnqueueLinksSpec(queue: seq<string>, visited: set<string>, pageUrl: string,
                                            baseDomain: string, resolve: (string, string) -> string,
                                            links: seq<string>)
    ensures var r := EnqueueLinks(queue, visited, pageUrl, baseDomain, resolve, links);
      && queue <= r
      && (forall i :: |queue| <= i < |r| ==> InScope(r[i], baseDomain) && r[i] !in visited && r[i] !in queue)
      && (NoDup(queue) ==> NoDup(r))
      && (forall i :: |queue| <= i < |r| ==>
            exists h :: h in links && Candidate(h, pageUrl, baseDomain, resolve) == Some(r[i]))
    ensures forall h :: h in links ==>
      match Candidate(h, pageUrl, baseDomain, resolve)
      case None => true
      case Some(url) =>
        InScope(url, baseDomain) && url !in visited ==>
          url in EnqueueLinks(queue, visited, pageUrl, baseDomain, resolve, links)
    decreases |links|
  {
    if links != [] {
      var q1 := Admit(queue, visited, links[0], pageUrl, baseDomain, resolve);
      var r := EnqueueLinks(q1, visited, pageUrl, baseDomain, resolve, links[1..]);
      EnqueueLinksSpec(q1, visited, pageUrl, baseDomain, resolve, links[1..]);
      assert r == EnqueueLinks(queue, visited, pageUrl, baseDomain, resolve, links);
      assert queue <= q1;
      assert |q1| <= |queue| + 1;
      forall i | |queue| <= i < |r|
        ensures InScope(r[i], baseDomain) && r[i] !in visited && r[i] !in queue
        ensures exists h :: h in links && Candidate(h, pageUrl, baseDomain, resolve) == Some(r[i])
      {
        if i < |q1| {
          assert Candidate(links[0], pageUrl, baseDomain, resolve) == Some(r[i]);
        } else {
          var h :| h in links[1..] && Candidate(h, pageUrl, baseDomain, resolve) == Some(r[i]);
          assert h in links;
        }
      }
      if NoDup(queue) {
        assert NoDup(q1);
      }
      forall h | h in links
        ensures match Candidate(h, pageUrl, baseDomain, resolve)
          case None => true
          case Some(url) => InScope(url, baseDomain) && url !in visited ==> url in r
      {
        if h != links[0] {
          assert h in links[1..];
        } else if Candidate(h, pageUrl, baseDomain, resolve).Some? {
          var url := Candidate(h, pageUrl, baseDomain, resolve).value;
          if InScope(url, baseDomain) && url !in visited {
            assert url in q1;
            assert url in r;
          }
        }
      }
    }
  }
}
