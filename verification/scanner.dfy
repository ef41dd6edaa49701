/** The anchor-extraction loop of `LinkReader` (and of its copy
    `linkReader`): a scan over one page's tokens that keeps the captured
    anchor start tag and the text seen since, and collects the valid links
    in the order their anchors close. */
module Scanner {
  import opened Wrappers
  import opened Strings
  import opened Html
  import opened Links

  /** The loop's variables: `start` (nil when no anchor is open), the text
      buffer and the links found so far. */
  datatype ScanState = ScanState(start: Option<Token>, text: string, links: seq<Link>)

  const Idle: ScanState := ScanState(None, "", [])

  /** What the loop keeps true of its capture: no open capture means an
      empty text buffer, and a capture is always an anchor start tag that
      has attributes. */
  predicate CaptureInv(st: ScanState) {
    (st.start.None? ==> st.text == []) &&
    (st.start.Some? ==> IsAnchorStart(st.start.value) && |st.start.value.attrs| > 0)
  }

  /** Links fit to report from a page scanned at `depth`. */
  predicate AllValidAt(links: seq<Link>, depth: int) {
    forall l <- links :: l.Valid() && l.depth == depth && IsTrimmed(l.text)
  }

  /** The link an anchor end tag produces, if it passes validation. */
  function Emitted(start: Token, text: string, depth: int): (r: seq<Link>)
    ensures AllValidAt(r, depth)
    ensures |r| <= 1
    ensures r != [] <==> NewLink(start, text, depth).Valid()
    ensures r != [] ==> r[0] == NewLink(start, text, depth)
  {
    var link := NewLink(start, text, depth);
    if link.Valid() then [link] else []
  }

  /** A closing anchor whose last `href` and text are non-empty once trimmed,
      whose url holds no script marker and whose depth is below MaxDepth
      yields exactly one link, made of that url, that text and the depth. */
  lemma AnchorLink(open: Token, i: int, text: string, depth: int)
    requires LastHrefAt(open.attrs, i)
    requires TrimSpace(text) != [] && TrimSpace(open.attrs[i].val) != []
    requires !Contains(ToLower(TrimSpace(open.attrs[i].val)), ScriptMarker)
    requires depth < MaxDepth
    ensures Emitted(open, text, depth) == [Link(TrimSpace(open.attrs[i].val), TrimSpace(text), depth)]
  {
    NewLinkUrl(open, text, depth);
  }

  /** One iteration of the loop body for a token that is not an error. */
  function Step(st: ScanState, tok: Token, depth: int): (r: ScanState)
    requires tok.kind != ErrorToken
    ensures CaptureInv(st) ==> CaptureInv(r)
    // links only grow, by the link of a closing anchor
    ensures r.links == st.links ||
      (st.start.Some? && r.links == st.links + Emitted(st.start.value, st.text, depth))
    // text is appended only while a capture is open
    ensures tok.kind == TextToken ==>
      r == st.(text := if st.start.Some? then st.text + tok.data else st.text)
    // an anchor start tag opens or replaces the capture only when it has
    // attributes, and never clears the text buffer
    ensures IsAnchorStart(tok) && |tok.attrs| == 0 ==> r == st
    ensures IsAnchorStart(tok) && |tok.attrs| > 0 ==> r == st.(start := Some(tok))
    // an anchor end tag without a capture changes nothing; with one, it
    // closes the capture and appends the link if it is valid
    ensures IsAnchorEnd(tok) && st.start.None? ==> r == st
    ensures IsAnchorEnd(tok) && st.start.Some? ==>
      r == ScanState(None, "", st.links + Emitted(st.start.value, st.text, depth))
    // every other token is ignored
    ensures tok.kind != TextToken && !IsAnchorStart(tok) && !IsAnchorEnd(tok) ==> r == st
  {
    var text := if st.start.Some? && tok.kind == TextToken then st.text + tok.data else st.text;
    if !tok.isAnchor then st.(text := text)
    else match tok.kind
      case StartTagToken =>
        if |tok.attrs| > 0 then ScanState(Some(tok), text, st.links) else st.(text := text)
      case EndTagToken =>
        if st.start.None? then st.(text := text)
        else ScanState(None, "", st.links + Emitted(st.start.value, text, depth))
      case _ => st.(text := text)
  }

  /** The loop from state `st` over `tokens`, up to the first error token
      or the end of the sequence (the tokenizer's end of input). */
  function Run(st: ScanState, tokens: seq<Token>, depth: int): (r: ScanState)
    ensures CaptureInv(st) ==> CaptureInv(r)
    ensures st.links <= r.links
    decreases |tokens|
  {
    if tokens == [] || tokens[0].kind == ErrorToken then st
    else
      var next := Step(st, tokens[0], depth);
      assert st.links <= next.links;
      Run(next, tokens[1..], depth)
  }

  /** Every link the loop collects is valid and carries the scan's depth. */
  lemma {:induction false} RunValidAt(st: ScanState, tokens: seq<Token>, depth: int)
    requires AllValidAt(st.links, depth)
    ensures AllValidAt(Run(st, tokens, depth).links, depth)
    decreases |tokens|
  {
    if tokens != [] && tokens[0].kind != ErrorToken {
      var next := Step(st, tokens[0], depth);
      assert AllValidAt(next.links, depth);
      RunValidAt(next, tokens[1..], depth);
    }
  }

  /** The number of anchor end tags before the first error token. */
  function AnchorEnds(tokens: seq<Token>): nat {
    if tokens == [] || tokens[0].kind == ErrorToken then 0
    else (if IsAnchorEnd(tokens[0]) then 1 else 0) + AnchorEnds(tokens[1..])
  }

  /** The links one page yields: every one valid, trimmed and at the scan's
      depth, and no more of them than there are anchor end tags before the
      first error token. */
  function Scan(tokens: seq<Token>, depth: int): (r: seq<Link>)
    ensures AllValidAt(r, depth)
    ensures |r| <= AnchorEnds(tokens)
  {
    RunValidAt(Idle, tokens, depth);
    RunLinkCount(Idle, tokens, depth);
    Run(Idle, tokens, depth).links
  }

  lemma {:induction false} RunLinkCount(st: ScanState, tokens: seq<Token>, depth: int)
    ensures |Run(st, tokens, depth).links| <= |st.links| + AnchorEnds(tokens)
    decreases |tokens|
  {
    if tokens != [] && tokens[0].kind != ErrorToken {
      RunLinkCount(Step(st, tokens[0], depth), tokens[1..], depth);
    }
  }

  /** An error token ends the scan: nothing after it matters, and an anchor
      still open when it arrives yields no link. */
  lemma {:induction false} RunStopsAtError(st: ScanState, before: seq<Token>, err: Token, after: seq<Token>, depth: int)
    requires err.kind == ErrorToken
    ensures Run(st, before + [err] + after, depth) == Run(st, before, depth)
    decreases |before|
  {
    var all := before + [err] + after;
    if before == [] {
      assert all[0] == err;
    } else {
      assert all[0] == before[0];
      if before[0].kind != ErrorToken {
        assert all[1..] == before[1..] + [err] + after;
        RunStopsAtError(Step(st, before[0], depth), before[1..], err, after, depth);
      }
    }
  }

  /** Tokens that never affect the scan: anything that is neither text, an
      error, an anchor end tag, nor an anchor start tag with attributes. */
  predicate Inert(t: Token) {
    t.kind != ErrorToken && t.kind != TextToken && !IsAnchorEnd(t) &&
    !(IsAnchorStart(t) && |t.attrs| > 0)
  }

  /** Removing an inert token, such as an anchor start tag without any
      attribute, leaves the scan's result unchanged. */
  lemma {:induction false} RunSkipsInert(st: ScanState, before: seq<Token>, t: Token, after: seq<Token>, depth: int)
    requires Inert(t)
    ensures Run(st, before + [t] + after, depth) == Run(st, before + after, depth)
    decreases |before|
  {
    var all := before + [t] + after;
    if before == [] {
      assert all[0] == t && all[1..] == after;
      assert before + after == after;
    } else {
      assert all[0] == before[0] && (before + after)[0] == before[0];
      if before[0].kind != ErrorToken {
        assert all[1..] == before[1..] + [t] + after;
        assert (before + after)[1..] == before[1..] + after;
        RunSkipsInert(Step(st, before[0], depth), before[1..], t, after, depth);
      }
    }
  }

  /** An anchor start tag with attributes, one text token and the anchor
      end tag, met with no capture open, append exactly the link built
      from them when it is valid, and leave no capture open. */
  lemma AnchorYieldsLink(st: ScanState, tokens: seq<Token>, depth: int)
    requires CaptureInv(st) && st.start.None?
    requires |tokens| >= 3
    requires IsAnchorStart(tokens[0]) && |tokens[0].attrs| > 0
    requires tokens[1].kind == TextToken
    requires IsAnchorEnd(tokens[2])
    ensures Run(st, tokens, depth) ==
      Run(ScanState(None, "", st.links + Emitted(tokens[0], tokens[1].data, depth)), tokens[3..], depth)
  {
    var s1 := Step(st, tokens[0], depth);
    assert s1 == st.(start := Some(tokens[0]));
    var s2 := Step(s1, tokens[1], depth);
    assert s2 == s1.(text := tokens[1].data) by {
      assert [] + tokens[1].data == tokens[1].data;
    }
    RunUnfold(st, tokens, depth);
    RunUnfold(s1, tokens[1..], depth);
    RunUnfold(s2, tokens[2..], depth);
    assert tokens[1..][1..] == tokens[2..] && tokens[2..][1..] == tokens[3..];
  }

  lemma RunUnfold(st: ScanState, tokens: seq<Token>, depth: int)
    requires tokens != [] && tokens[0].kind != ErrorToken
    ensures Run(st, tokens, depth) == Run(Step(st, tokens[0], depth), tokens[1..], depth)
  {
  }

  /** `LinkReader`: the loop itself, over the page's tokens. */
  method LinkReader(tokens: seq<Token>, depth: int) returns (links: seq<Link>)
    ensures links == Scan(tokens, depth)
  {
    links := [];
    var start: Option<Token> := None;
    var text := "";
    for i := 0 to |tokens|
      invariant CaptureInv(ScanState(start, text, links))
      invariant Run(ScanState(start, text, links), tokens[i..], depth) == Run(Idle, tokens, depth)
    {
      var token := tokens[i];
      if token.kind == ErrorToken {
        break;
      }
      ghost var before := ScanState(start, text, links);
      assert tokens[i..][1..] == tokens[i + 1..];
      if start.Some? && token.kind == TextToken {
        text := text + token.data;
      }
      if token.isAnchor {
        match token.kind
        case StartTagToken =>
          if |token.attrs| > 0 {
            start := Some(token);
          }
        case EndTagToken =>
          if start.Some? {
            var link := NewLink(start.value, text, depth);
            if link.Valid() {
              links := links + [link];
            }
            start := None;
            text := "";
          }
          // otherwise a dangling end tag: only a warning is logged
        case _ =>
      }
      assert ScanState(start, text, links) == Step(before, token, depth);
    }
  }

  /** `linkReader`, the repository's second copy of the same loop; it is
      proved against the same specification, so both compute Scan. */
  method LinkReaderEx2(tokens: seq<Token>, depth: int) returns (links: seq<Link>)
    ensures links == Scan(tokens, depth)
  {
    links := [];
    var start: Option<Token> := None;
    var text := "";
    for i := 0 to |tokens|
      invariant CaptureInv(ScanState(start, text, links))
      invariant Run(ScanState(start, text, links), tokens[i..], depth) == Run(Idle, tokens, depth)
    {
      var token := tokens[i];
      if token.kind == ErrorToken {
        break;
      }
      ghost var before := ScanState(start, text, links);
      assert tokens[i..][1..] == tokens[i + 1..];
      if start.Some? && token.kind == TextToken {
        text := text + token.data;
      }
      if token.isAnchor {
        match token.kind
        case StartTagToken =>
          if |token.attrs| > 0 {
            start := Some(token);
          }
        case EndTagToken =>
          if start.Some? {
            var link := NewLink(start.value, text, depth);
            if link.Valid() {
              links := links + [link];
            }
            start := None;
            text := "";
          }
        case _ =>
      }
      assert ScanState(start, text, links) == Step(before, token, depth);
    }
  }
}
