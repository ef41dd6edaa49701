/** The depth-first crawl of `recurDownloader`, with the status rule of
    `downloader`. A fetch is an abstract function from a url to either a
    transport failure (None) or a response; printing appends to the
    printed-link sequence of a Console. */
module Crawler {
  import opened Wrappers
  import opened Strings
  import opened Html
  import opened Links
  import opened Scanner

  /** A response: its status code and the tokens of its body. */
  datatype Response = Response(status: int, page: seq<Token>)

  /** The errors `downloader` returns: the transport's own, or an
      `HTTPError` whose message names the status and the url. */
  datatype CrawlError = TransportFailure | HTTPError(original: string)

  /** The HTTP status rule: anything above 299 is an error. */
  predicate IsErrorStatus(status: int) {
    status > 299
  }

  /** `downloader`: one GET through `fetch`; a transport failure or an
      error status yields an error, any other status the page. */
  function Download(fetch: string -> Option<Response>, url: string): (r: Result<seq<Token>, CrawlError>)
    ensures r.Failure? <==> fetch(url).None? || IsErrorStatus(fetch(url).value.status)
    ensures r.Success? ==> r.value == fetch(url).value.page
    ensures fetch(url).Some? && IsErrorStatus(fetch(url).value.status) ==>
      r.error == HTTPError("Error (" + IntToString(fetch(url).value.status) + "): " + url)
  {
    match fetch(url)
    case None => Failure(TransportFailure)
    case Some(resp) =>
      if resp.status > 299 then
        Failure(HTTPError("Error (" + IntToString(resp.status) + "): " + url))
      else Success(resp.page)
  }

  /** Everything `recurDownloader(url, depth)` prints, in order. */
  function Crawl(fetch: string -> Option<Response>, url: string, depth: int): seq<Link>
    decreases MaxDepth - depth, 1, 0
  {
    match Download(fetch, url)
    case Failure(_) => []
    case Success(page) => Visit(fetch, Scan(page, depth), depth)
  }

  /** The loop of `recurDownloader` over the links of one page: each link
      is printed, followed by the whole crawl of its url when one more
      level is allowed. */
  function Visit(fetch: string -> Option<Response>, links: seq<Link>, depth: int): seq<Link>
    decreases MaxDepth - depth, 0, |links|
  {
    if links == [] then []
    else
      var link := links[|links| - 1];
      Visit(fetch, links[..|links| - 1], depth) + [link] +
      (if depth + 1 < MaxDepth then Crawl(fetch, link.url, depth + 1) else [])
  }

  /** A failed download prints nothing and follows nothing. */
  lemma CrawlFetchFails(fetch: string -> Option<Response>, url: string, depth: int)
    requires fetch(url).None? || IsErrorStatus(fetch(url).value.status)
    ensures Crawl(fetch, url, depth) == []
  {
  }

  /** Every link the crawl prints is valid, trimmed, and lies between the
      starting depth and MaxDepth. */
  lemma {:induction false} CrawlReports(fetch: string -> Option<Response>, url: string, depth: int)
    ensures forall l <- Crawl(fetch, url, depth) ::
      l.Valid() && depth <= l.depth < MaxDepth && IsTrimmed(l.text)
    decreases MaxDepth - depth, 1, 0
  {
    match Download(fetch, url)
    case Failure(_) =>
    case Success(page) => VisitReports(fetch, Scan(page, depth), depth);
  }

  lemma {:induction false} VisitReports(fetch: string -> Option<Response>, links: seq<Link>, depth: int)
    requires AllValidAt(links, depth)
    ensures forall l <- Visit(fetch, links, depth) ::
      l.Valid() && depth <= l.depth < MaxDepth && IsTrimmed(l.text)
    decreases MaxDepth - depth, 0, |links|
  {
    if links != [] {
      var link := links[|links| - 1];
      VisitReports(fetch, links[..|links| - 1], depth);
      if depth + 1 < MaxDepth {
        CrawlReports(fetch, link.url, depth + 1);
      }
    }
  }

  /** The links of an output that sit at exactly `depth`, in order. */
  function AtDepth(out: seq<Link>, depth: int): (r: seq<Link>) {
    if out == [] then []
    else AtDepth(out[..|out| - 1], depth) + (if out[|out| - 1].depth == depth then [out[|out| - 1]] else [])
  }

  lemma {:induction false} AtDepthConcat(a: seq<Link>, b: seq<Link>, depth: int)
    ensures AtDepth(a + b, depth) == AtDepth(a, depth) + AtDepth(b, depth)
    decreases |b|
  {
    if b == [] {
      assert a + b == a;
    } else {
      assert (a + b)[..|a + b| - 1] == a + b[..|b| - 1];
      AtDepthConcat(a, b[..|b| - 1], depth);
    }
  }

  lemma {:induction false} AtDepthNone(out: seq<Link>, depth: int)
    requires forall l <- out :: l.depth > depth
    ensures AtDepth(out, depth) == []
    decreases |out|
  {
    if out != [] {
      AtDepthNone(out[..|out| - 1], depth);
    }
  }

  lemma VisitUnfold(fetch: string -> Option<Response>, links: seq<Link>, depth: int)
    requires links != []
    ensures Visit(fetch, links, depth) ==
      Visit(fetch, links[..|links| - 1], depth) + [links[|links| - 1]] +
      (if depth + 1 < MaxDepth then Crawl(fetch, links[|links| - 1].url, depth + 1) else [])
  {
  }

  lemma CrawlReportsIfFollowed(fetch: string -> Option<Response>, link: Link, depth: int)
    ensures depth + 1 < MaxDepth ==>
      forall l <- Crawl(fetch, link.url, depth + 1) :: l.depth > depth
  {
    if depth + 1 < MaxDepth {
      CrawlReports(fetch, link.url, depth + 1);
    }
  }

  lemma {:induction false} VisitAtDepth(fetch: string -> Option<Response>, links: seq<Link>, depth: int)
    requires forall l <- links :: l.depth == depth
    ensures AtDepth(Visit(fetch, links, depth), depth) == links
    decreases |links|
  {
    if links != [] {
      var link := links[|links| - 1];
      var front := links[..|links| - 1];
      var below := if depth + 1 < MaxDepth then Crawl(fetch, link.url, depth + 1) else [];
      var visited := Visit(fetch, front, depth);
      CrawlReportsIfFollowed(fetch, link, depth);
      calc {
        AtDepth(Visit(fetch, links, depth), depth);
        { VisitUnfold(fetch, links, depth); }
        AtDepth(visited + [link] + below, depth);
        { AtDepthConcat(visited + [link], below, depth); AtDepthNone(below, depth); }
        AtDepth(visited + [link], depth);
        { AtDepthConcat(visited, [link], depth); assert [link][..0] == []; }
        AtDepth(visited, depth) + [link];
        { VisitAtDepth(fetch, front, depth); }
        front + [link];
        links;
      }
    }
  }

  /** The links the crawl of a page prints at the page's own depth are
      exactly the links its scan yields, in document order; everything
      else it prints lies deeper. */
  lemma CrawlTopLevel(fetch: string -> Option<Response>, url: string, depth: int)
    requires Download(fetch, url).Success?
    ensures AtDepth(Crawl(fetch, url, depth), depth) == Scan(Download(fetch, url).value, depth)
  {
    VisitAtDepth(fetch, Scan(Download(fetch, url).value, depth), depth);
  }

  lemma {:induction false} VisitLeaf(fetch: string -> Option<Response>, links: seq<Link>, depth: int)
    requires depth + 1 >= MaxDepth
    ensures Visit(fetch, links, depth) == links
    decreases |links|
  {
    if links != [] {
      VisitLeaf(fetch, links[..|links| - 1], depth);
      assert links[..|links| - 1] + [links[|links| - 1]] == links;
    }
  }

  /** At the last level (depth + 1 == MaxDepth) the crawl prints the page's
      links and follows none of them. */
  lemma CrawlLastLevel(fetch: string -> Option<Response>, url: string, depth: int)
    requires depth + 1 >= MaxDepth
    requires Download(fetch, url).Success?
    ensures Crawl(fetch, url, depth) == Scan(Download(fetch, url).value, depth)
  {
    VisitLeaf(fetch, Scan(Download(fetch, url).value, depth), depth);
  }

  /** Every line the crawl prints starts with as many tabs as its link's
      depth, when the crawl starts at a non-negative depth. */
  lemma CrawlIndentation(fetch: string -> Option<Response>, url: string, depth: nat)
    ensures forall l <- Crawl(fetch, url, depth) :: l.depth >= 0 && LeadingTabs(l.String()) == l.depth
  {
    CrawlReports(fetch, url, depth);
    forall l <- Crawl(fetch, url, depth)
      ensures l.depth >= 0 && LeadingTabs(l.String()) == l.depth
    {
      StringIndentation(l);
    }
  }

  /** One more turn of the loop of `recurDownloader` extends what it has
      printed by `Visit` of one more link. */
  lemma VisitPrefix(fetch: string -> Option<Response>, links: seq<Link>, i: nat, depth: int,
                    start: seq<Link>, before: seq<Link>, after: seq<Link>)
    requires i < |links|
    requires before == start + Visit(fetch, links[..i], depth)
    requires after == before + [links[i]] +
      (if depth + 1 < MaxDepth then Crawl(fetch, links[i].url, depth + 1) else [])
    ensures after == start + Visit(fetch, links[..i + 1], depth)
  {
    var below := if depth + 1 < MaxDepth then Crawl(fetch, links[i].url, depth + 1) else [];
    var visited := Visit(fetch, links[..i], depth);
    assert Visit(fetch, links[..i + 1], depth) == visited + [links[i]] + below by {
      assert links[..i + 1][..i] == links[..i];
      VisitUnfold(fetch, links[..i + 1], depth);
    }
    Regroup(start, visited, [links[i]], below);
  }

  lemma Regroup(a: seq<Link>, b: seq<Link>, c: seq<Link>, d: seq<Link>)
    ensures a + b + c + d == a + (b + c + d)
  {
  }

  /** Standard output, as the sequence of links printed so far. */
  class Console {
    var printed: seq<Link>

    constructor ()
      ensures printed == []
    {
      printed := [];
    }

    /** `fmt.Println(link)`: one line, `link.String()`. */
    method Println(link: Link)
      modifies this
      ensures printed == old(printed) + [link]
    {
      printed := printed + [link];
    }
  }

  /** `recurDownloader`: download, scan, then print each link and crawl its
      url one level deeper while that level is below MaxDepth. */
  method RecurDownloader(console: Console, fetch: string -> Option<Response>, url: string, depth: int)
    modifies console
    ensures console.printed == old(console.printed) + Crawl(fetch, url, depth)
    decreases MaxDepth - depth
  {
    var page := Download(fetch, url);
    if page.Failure? {
      // the error is logged and this branch ends
      return;
    }
    var links := LinkReader(page.value, depth);
    for i := 0 to |links|
      invariant console.printed == old(console.printed) + Visit(fetch, links[..i], depth)
    {
      ghost var before := console.printed;
      console.Println(links[i]);
      if depth + 1 < MaxDepth {
        RecurDownloader(console, fetch, links[i].url, depth + 1);
      }
      VisitPrefix(fetch, links, i, depth, old(console.printed), before, console.printed);
    }
    assert links[..|links|] == links;
  }
}
