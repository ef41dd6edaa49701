# LinkCrawler, modelled in Dafny

LinkCrawler is a small command-line crawler. It downloads the page at a
seed URL and tokenizes its HTML. It keeps every anchor (`<a …>…</a>`)
that carries attributes, and turns each one into a `Link`: the trimmed
anchor text, the trimmed value of its last `href`, and the crawl depth.
It prints each valid link, indented by one tab per level. It then crawls
the link's URL one level deeper, as long as the next level is below
`MaxDepth` (2).

The model has six modules:

- `Wrappers`: the `Option` and `Result` types.
- `Strings`: the parts of Go's `strings` and `fmt` the crawler uses, over
  ASCII:
  - `TrimSpace`, `ToLower`, `Contains` and `Repeat`;
  - decimal rendering of integers.
- `Html`: the tokens the crawler reads. A token has:
  - its type;
  - whether its element is `a`;
  - its data;
  - its attributes.
- `Links`: the `Link` record, with `NewLink`, `Valid` and `String`.
- `Scanner`: the token loop of `LinkReader` and of its twin `linkReader`.
  - Each is a method with a `for` loop.
  - Each is proved equal to the function `Scan`.
  - `Scan` folds the one-token step `Step` over the tokens, up to the
    first error token.
- `Crawler`: the depth-first crawl.
  - `Download` models the status rule of `downloader`.
  - `Crawl` and `Visit` say what `recurDownloader` prints.
  - `RecurDownloader` is the recursive method. It prints to a `Console`
    object and is proved to print exactly `Crawl`.

`Scenarios` works through a two-anchor seed page, a seed that answers 404,
and a `JavaScript:` url, deriving each result from the general lemmas.

The network is a parameter `fetch: string -> Option<Response>`:

- `None` is a transport error.
- `Some(Response(status, tokens))` is a response together with its
  tokenized body.

The end of the token sequence stands for the tokenizer's `io.EOF` error
token. Termination of the crawl follows from the decreasing measure
`MaxDepth - depth` of `Crawl`, `Visit` and `RecurDownloader`.

## Model

| member | source | states |
|---|---|---|
| Scanner.LinkReader | LinkCrawler/main.go:63-106 | the token loop returns exactly `Scan(tokens, depth)`: its loop invariant keeps the capture state consistent and equal to `Run` of the tokens already read |
| Scanner.LinkReaderEx2 | LinkCrawler/main.go:121-166 | the second copy of the loop (`linkReader`) also returns exactly `Scan(tokens, depth)`, so both readers compute the same links |
| Scanner.Step | LinkCrawler/main.go:77-100 | one token preserves the capture invariant; text is appended only while a capture is open; an anchor start tag without attributes changes nothing; one with attributes replaces the open tag and keeps the text; a dangling end tag changes nothing; a closing end tag appends the link when it is valid, then resets the capture; every other token changes nothing |
| Scanner.Emitted | LinkCrawler/main.go:92-96 | a closing anchor yields a link exactly when the `NewLink` of its tag and text is valid, and that link is the `NewLink` itself, at the reader's depth with trimmed text; never more than one |
| Scanner.AnchorLink | LinkCrawler/main.go:92-94 | an anchor whose last `href` and text are non-empty once trimmed, whose url holds no `javascript` and whose depth is below `MaxDepth` yields exactly one link, with the trimmed url, the trimmed text and the depth |
| Scanner.Run | LinkCrawler/main.go:70-102 | the loop keeps the capture invariant and only ever appends to the links |
| Scanner.RunValidAt | LinkCrawler/main.go:92-96 | every link the loop collects is valid, carries the reader's depth and has trimmed text |
| Scanner.Scan | LinkCrawler/main.go:63-106 | every link returned is valid and at the given depth; there are at most as many links as anchor end tags before the first error token |
| Scanner.RunLinkCount | LinkCrawler/main.go:87-99 | the loop adds at most one link per anchor end tag read before the first error token |
| Scanner.RunStopsAtError | LinkCrawler/main.go:73-75 | an error token ends the scan: nothing after it has any effect, and an anchor still open is discarded |
| Scanner.RunSkipsInert | LinkCrawler/main.go:77-101 | removing a token that is neither text nor an anchor tag does not change the result |
| Scanner.AnchorYieldsLink | LinkCrawler/main.go:83-99 | from an idle state, an anchor start tag with attributes, one text token and the end tag yield exactly the link `NewLink` makes of them, if it is valid, and leave the reader idle |
| Links.NewLink | LinkCrawler/main.go:169-177 | the new link keeps the depth, its text is the input text with white space trimmed at both ends, and its url is trimmed |
| Links.HrefScanTrimmed | LinkCrawler/main.go:172-176 | the url the attribute loop settles on is trimmed, given a trimmed initial url |
| Links.HrefScanNoHref | LinkCrawler/main.go:172-176 | without an `href` attribute the initial url is kept |
| Links.HrefScanLast | LinkCrawler/main.go:172-176 | the last `href` attribute wins: its trimmed value is the url |
| Links.NewLinkUrl | LinkCrawler/main.go:169-177 | the url is `""` when there is no `href`, and otherwise the trimmed value of the last `href` |
| Links.HrefScanTrimInvariant | LinkCrawler/main.go:172-176 | white space around attribute values does not change the url |
| Links.NewLinkIgnoresPadding | LinkCrawler/main.go:169-177 | padding the text or the attribute values with white space yields the same `Link` |
| Links.ValidIff | LinkCrawler/main.go:189-202 | a link is valid exactly when its depth is below `MaxDepth`, its text and url are non-empty, and its lower-cased url has no occurrence of `javascript` |
| Links.Link.String | LinkCrawler/main.go:180-183 | the printed line is `depth` tabs, the text, ` (`, the decimal depth, `) - ` and the url, each segment at its position, and its length is the sum of theirs |
| Links.StringIndentation | LinkCrawler/main.go:180-183 | a printed line with trimmed text starts with exactly `depth` tabs |
| Crawler.Download | LinkCrawler/main.go:45-58 | a download fails exactly on a transport error or a status above 299; on success it yields the body; an HTTP error carries the message `Error (<status>): <url>` |
| Crawler.CrawlFetchFails | LinkCrawler/main.go:30-34 | a failed download prints nothing and follows nothing |
| Crawler.CrawlReports | LinkCrawler/main.go:29-43 | every link the crawl prints is valid and trimmed, with a depth between the starting depth and `MaxDepth` |
| Crawler.VisitReports | LinkCrawler/main.go:37-42 | the same bound for the loop over a page's links |
| Crawler.VisitAtDepth | LinkCrawler/main.go:37-42 | among what the loop prints, the lines at the page's own depth are exactly the page's links, in order |
| Crawler.CrawlTopLevel | LinkCrawler/main.go:29-43 | the crawl of a page prints, at the page's depth, exactly the links the reader finds on it, in document order |
| Crawler.CrawlLastLevel | LinkCrawler/main.go:39-41 | at the last level the crawl prints the page's links and follows none |
| Crawler.CrawlIndentation | LinkCrawler/main.go:38 | every printed line is indented by as many tabs as its link's depth |
| Crawler.VisitPrefix | LinkCrawler/main.go:37-42 | one more turn of the loop extends the printed output by the next link and its sub-crawl |
| Crawler.Console.Println | LinkCrawler/main.go:38 | printing appends exactly one line |
| Crawler.RecurDownloader | LinkCrawler/main.go:29-43 | the recursive crawl appends exactly `Crawl(fetch, url, depth)` to the console |
| Strings.TrimSpace | LinkCrawler/main.go:170 | the result has no white space at either end and is no longer than the input |
| Strings.TrimSpaceSplit | LinkCrawler/main.go:170 | the result is a factor of the input, and only white space is cut away on either side |
| Strings.TrimSpacePadded | LinkCrawler/main.go:170 | a trimmed string padded with white space trims back to itself |
| Strings.TrimSpaceIgnoresPadding | LinkCrawler/main.go:170 | white space added at either end does not change the result |
| Strings.TrimSpaceIdempotent | LinkCrawler/main.go:174 | trimming twice is trimming once |
| Strings.ToLower | LinkCrawler/main.go:197 | lower-casing keeps the length and maps each character on its own |
| Strings.ContainsIff | LinkCrawler/main.go:197 | `Contains` holds exactly when the pattern occurs at some index |
| Strings.NatToString | LinkCrawler/main.go:182 | `%d` of a natural is a non-empty string of digits without a leading zero |
| Strings.IntToString | LinkCrawler/main.go:54 | `%d` of a non-negative integer is its decimal rendering; of a negative one, a minus sign followed by the decimal rendering of its absolute value |
| Strings.DecimalRoundTrip | LinkCrawler/main.go:182 | reading the decimal rendering back gives the original number |
| Scenarios.SeedPageLinks | LinkCrawler/main.go:63-106 | `<a href="/x">Hi</a><a>NoAttr</a>` yields only `Link("/x", "Hi", 0)`: the second anchor has no attributes, so its end tag is a dangling one |
| Scenarios.SeedPageCrawl | LinkCrawler/main.go:29-43 | seeded with that page, the crawl prints the link, then the crawl of `/x` at depth 1 |
| Scenarios.NotFoundSeed | LinkCrawler/main.go:53-56 | a 404 on the seed gives `Error (404): <seed>` and prints nothing |
| Scenarios.ScriptLinkRejected | LinkCrawler/main.go:197 | a `JavaScript:` url in mixed case is not valid |

## Left out

- `main` (reading the seed from the command line) is not modelled; `RecurDownloader` starts from any url and depth.
- `http.Get` is the parameter `fetch`. A transport error is `None`. Response bodies are given already tokenized. Closing the body is not modelled.
- `fetch` is a fixed total function. Two requests for the same url (the crawler keeps no visited set) get the same response, and every request returns; a server that changes between requests, or a request that stalls the crawl, is not modelled.
- The HTML tokenizer is not part of this model. A page is a sequence of tokens; `isAnchor` stands for `DataAtom == atom.A`. Its end stands for the `io.EOF` error token.
- Logging is left out: the debug lines, the warning for an end tag without a start, and the error log in `recurDownloader`. None of them changes what is returned or printed.
- `Crawler.Console` records the `Link` values passed to `fmt.Println`, not the text. `Links.Link.String` gives the text of each line separately.
- `Strings.TrimSpace`: only ASCII white space (tab, newline, vertical tab, form feed, carriage return, space) is trimmed. Unicode white space such as U+0085 and U+00A0 is not.
- `Strings.ToLower`: only ASCII letters are lower-cased. Unicode case mapping is not modelled.
- `Links.Link.String` requires a non-negative depth, because `strings.Repeat` panics on a negative count; every depth the crawler produces is non-negative.
- `HTTPError.Error` only returns the stored message, so the model keeps the message in `HTTPError(original)` and has no separate member.
- The attribute namespace of Go's `html.Attribute` is not modelled; only key and value are read.
- `initializeServer` and the separate WebApp program are not part of this model.
- Go's `int` is 64 bits wide. Depths stay between 0 and `MaxDepth`, so the model uses unbounded integers.
