/** Worked pages: the behaviour the crawler shows on three small inputs,
    derived from the general model. */
module Scenarios {
  import opened Wrappers
  import opened Strings
  import opened Html
  import opened Links
  import opened Scanner
  import opened Crawler

  function Anchor(attrs: seq<Attribute>): Token {
    Token(StartTagToken, true, "a", attrs)
  }

  function AnchorEnd(): Token {
    Token(EndTagToken, true, "a", [])
  }

  function Text(data: string): Token {
    Token(TextToken, false, data, [])
  }

  function Eof(): Token {
    Token(ErrorToken, false, "", [])
  }

  /** `<a href="/x">Hi</a><a>NoAttr</a>` followed by the end of input. */
  function SeedPage(): seq<Token> {
    [Anchor([Attribute("href", "/x")]), Text("Hi"), AnchorEnd(),
     Anchor([]), Text("NoAttr"), AnchorEnd(), Eof()]
  }

  /** The first anchor yields its link; the anchor without attributes is
      never captured, so its end tag is a dangling one and yields nothing. */
  lemma SeedPageLinks()
    ensures Scan(SeedPage(), 0) == [Link("/x", "Hi", 0)]
  {
    var page := SeedPage();
    assert page[3..] == [Anchor([]), Text("NoAttr"), AnchorEnd(), Eof()];
    TwoAnchorPage(page);
  }

  lemma TwoAnchorPage(page: seq<Token>)
    requires |page| == 7 && page[0] == Anchor([Attribute("href", "/x")])
    requires page[1] == Text("Hi") && page[2] == AnchorEnd()
    requires page[3..] == [Anchor([]), Text("NoAttr"), AnchorEnd(), Eof()]
    ensures Scan(page, 0) == [Link("/x", "Hi", 0)]
  {
    var st := ScanState(None, "", [Link("/x", "Hi", 0)]);
    HiLink(page[0]);
    AnchorYieldsLink(Idle, page, 0);
    assert page[1].data == "Hi";
    assert Idle.links + Emitted(page[0], "Hi", 0) == st.links;
    assert Run(Idle, page, 0) == Run(st, page[3..], 0);
    UncapturedTail(st, page[3..], 0);
  }

  /** The first anchor of the seed page yields `Link("/x", "Hi", 0)`. */
  lemma HiLink(open: Token)
    requires open.attrs == [Attribute("href", "/x")]
    ensures Emitted(open, "Hi", 0) == [Link("/x", "Hi", 0)]
  {
    var url := "/x";
    assert LastHrefAt(open.attrs, 0);
    TrimSpaceTrimmed(url);
    TrimSpaceTrimmed("Hi");
    assert !Contains(ToLower(url), ScriptMarker) by {
      assert |ToLower(url)| < |ScriptMarker|;
    }
    AnchorLink(open, 0, "Hi", 0);
  }

  /** An anchor without attributes, its text, its end tag and the end of
      input leave an idle scan untouched. */
  lemma UncapturedTail(st: ScanState, rest: seq<Token>, depth: int)
    requires CaptureInv(st) && st.start.None?
    requires |rest| == 4 && rest[0] == Anchor([]) && rest[1].kind == TextToken
    requires rest[2] == AnchorEnd() && rest[3].kind == ErrorToken
    ensures Run(st, rest, depth) == st
  {
    RunUnfold(st, rest, depth);
    RunUnfold(st, rest[1..], depth);
    RunUnfold(st, rest[2..], depth);
    assert rest[3..][0] == rest[3];
  }

  /** Seeded with that page, the crawl prints the one link at depth 0 and
      then whatever the crawl of `/x` at depth 1 prints. */
  lemma SeedPageCrawl(fetch: string -> Option<Response>, seed: string)
    requires fetch(seed) == Some(Response(200, SeedPage()))
    ensures Crawl(fetch, seed, 0) == [Link("/x", "Hi", 0)] + Crawl(fetch, "/x", 1)
  {
    SeedPageLinks();
    SingleLinkCrawl(fetch, seed, SeedPage(), Link("/x", "Hi", 0));
  }

  /** A fetched page whose scan yields one link `l` at depth 0: the crawl
      prints `l`, then the crawl of its url one level down. */
  lemma SingleLinkCrawl(fetch: string -> Option<Response>, seed: string, page: seq<Token>, l: Link)
    requires fetch(seed) == Some(Response(200, page))
    requires Scan(page, 0) == [l]
    ensures Crawl(fetch, seed, 0) == [l] + Crawl(fetch, l.url, 1)
  {
    var links := [l];
    assert Crawl(fetch, seed, 0) == Visit(fetch, links, 0);
    VisitUnfold(fetch, links, 0);
    assert links[..0] == [];
  }

  /** A 404 on the seed: an HTTPError naming status and url, and nothing
      printed. */
  lemma NotFoundSeed(fetch: string -> Option<Response>, seed: string, page: seq<Token>)
    requires fetch(seed) == Some(Response(404, page))
    ensures Download(fetch, seed) == Failure(HTTPError("Error (404): " + seed))
    ensures Crawl(fetch, seed, 0) == []
  {
    assert NatToString(4) == "4";
    assert NatToString(40) == "40";
    assert NatToString(404) == "404";
    assert IntToString(404) == "404";
    assert "Error (" + "404" + "): " + seed == "Error (404): " + seed;
  }

  /** A script pseudo-URL, in any letter case, is never reported. */
  lemma ScriptLinkRejected(text: string, depth: int)
    ensures !Link("JavaScript:alert(1)", text, depth).Valid()
  {
    var url := "JavaScript:alert(1)";
    ValidIff(Link(url, text, depth));
    assert ToLower(url)[0..10] == ScriptMarker;
    assert OccursAt(ToLower(url), ScriptMarker, 0);
  }
}
