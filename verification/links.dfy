/** The `Link` record of the crawler, how it is built from an anchor
    (`NewLink`), when it is worth reporting (`Valid`) and how it is printed
    (`String`). */
module Links {
  import opened Strings
  import opened Html

  /** Links at this depth or deeper are never reported nor followed. */
  const MaxDepth: int := 2

  /** The case-insensitive marker of a script pseudo-URL. */
  const ScriptMarker: string := "javascript"

  datatype Link = Link(url: string, text: string, depth: int) {

    /** `Link.Valid`: the checks in the order the Go code makes them. */
    predicate Valid() {
      if depth >= MaxDepth then false
      else if |text| == 0 then false
      else if |url| == 0 || Contains(ToLower(url), ScriptMarker) then false
      else true
    }

    /** `Link.String`: `depth` tabs, the text, then ` (depth) - url`.
        `strings.Repeat` panics on a negative count, hence the requires. */
    function String(): (r: string)
      requires depth >= 0
      ensures |r| == depth + |text| + |NatToString(depth)| + 6 + |url|
      ensures forall i :: 0 <= i < depth ==> r[i] == '\t'
      ensures r[depth..depth + |text|] == text
      ensures r[depth + |text|..|r| - |url|] == " (" + NatToString(depth) + ") - "
      ensures r[|r| - |url|..] == url
    {
      Repeat('\t', depth) + text + " (" + NatToString(depth) + ") - " + url
    }
  }

  /** The loop of `NewLink` over the attribute list: every `href` overwrites
      the url found so far with its trimmed value. */
  function HrefScan(attrs: seq<Attribute>, url: string): string
    decreases |attrs|
  {
    if attrs == [] then url
    else HrefScan(attrs[1..], if attrs[0].key == "href" then TrimSpace(attrs[0].val) else url)
  }

  /** `NewLink`: trimmed text, the url of the tag's attributes, the depth. */
  function NewLink(tag: Token, text: string, depth: int): (r: Link)
    ensures r.depth == depth
    ensures r.text == TrimSpace(text)
    ensures IsTrimmed(r.text) && IsTrimmed(r.url)
  {
    HrefScanTrimmed(tag.attrs, "");
    Link(HrefScan(tag.attrs, ""), TrimSpace(text), depth)
  }

  lemma {:induction false} HrefScanTrimmed(attrs: seq<Attribute>, url: string)
    requires IsTrimmed(url)
    ensures IsTrimmed(HrefScan(attrs, url))
    decreases |attrs|
  {
    if attrs != [] {
      HrefScanTrimmed(attrs[1..], if attrs[0].key == "href" then TrimSpace(attrs[0].val) else url);
    }
  }

  predicate HasHref(attrs: seq<Attribute>) {
    exists i :: 0 <= i < |attrs| && attrs[i].key == "href"
  }

  /** `attrs[i]` is the last attribute keyed `href`. */
  predicate LastHrefAt(attrs: seq<Attribute>, i: int) {
    0 <= i < |attrs| && attrs[i].key == "href" &&
    forall j :: i < j < |attrs| ==> attrs[j].key != "href"
  }

  lemma {:induction false} HrefScanNoHref(attrs: seq<Attribute>, url: string)
    requires !HasHref(attrs)
    ensures HrefScan(attrs, url) == url
    decreases |attrs|
  {
    if attrs != [] {
      assert !HasHref(attrs[1..]) by {
        assert forall k :: 0 <= k < |attrs[1..]| ==> attrs[1..][k] == attrs[k + 1];
      }
      HrefScanNoHref(attrs[1..], url);
    }
  }

  lemma {:induction false} HrefScanLast(attrs: seq<Attribute>, url: string, i: int)
    requires LastHrefAt(attrs, i)
    ensures HrefScan(attrs, url) == TrimSpace(attrs[i].val)
    decreases |attrs|
  {
    var next := if attrs[0].key == "href" then TrimSpace(attrs[0].val) else url;
    if i == 0 {
      assert !HasHref(attrs[1..]) by {
        assert forall k :: 0 <= k < |attrs[1..]| ==> attrs[1..][k] == attrs[k + 1];
      }
      HrefScanNoHref(attrs[1..], next);
    } else {
      assert LastHrefAt(attrs[1..], i - 1) by {
        assert forall k :: 0 <= k < |attrs[1..]| ==> attrs[1..][k] == attrs[k + 1];
      }
      HrefScanLast(attrs[1..], next, i - 1);
    }
  }

  /** The url of a new link is the trimmed value of the LAST attribute keyed
      `href`, and empty when there is none. */
  lemma NewLinkUrl(tag: Token, text: string, depth: int)
    ensures !HasHref(tag.attrs) ==> NewLink(tag, text, depth).url == ""
    ensures forall i :: LastHrefAt(tag.attrs, i) ==>
      NewLink(tag, text, depth).url == TrimSpace(tag.attrs[i].val)
  {
    if !HasHref(tag.attrs) {
      HrefScanNoHref(tag.attrs, "");
    }
    forall i | LastHrefAt(tag.attrs, i)
      ensures NewLink(tag, text, depth).url == TrimSpace(tag.attrs[i].val)
    {
      HrefScanLast(tag.attrs, "", i);
    }
  }

  /** Two attribute lists with the same keys whose values trim alike. */
  predicate SameTrimmedAttrs(a: seq<Attribute>, b: seq<Attribute>) {
    |a| == |b| &&
    forall i :: 0 <= i < |a| ==> a[i].key == b[i].key && TrimSpace(a[i].val) == TrimSpace(b[i].val)
  }

  lemma {:induction false} HrefScanTrimInvariant(a: seq<Attribute>, b: seq<Attribute>, url: string)
    requires SameTrimmedAttrs(a, b)
    ensures HrefScan(a, url) == HrefScan(b, url)
    decreases |a|
  {
    if a != [] {
      assert a[0].key == b[0].key && TrimSpace(a[0].val) == TrimSpace(b[0].val);
      assert SameTrimmedAttrs(a[1..], b[1..]) by {
        forall i | 0 <= i < |a[1..]|
          ensures a[1..][i].key == b[1..][i].key && TrimSpace(a[1..][i].val) == TrimSpace(b[1..][i].val)
        {
          assert a[1..][i] == a[i + 1] && b[1..][i] == b[i + 1];
        }
      }
      HrefScanTrimInvariant(a[1..], b[1..], if a[0].key == "href" then TrimSpace(a[0].val) else url);
    }
  }

  /** White space added around the text or around attribute values yields
      the same link. */
  lemma NewLinkIgnoresPadding(tag: Token, padded: Token, p: string, text: string, q: string, depth: int)
    requires AllSpace(p) && AllSpace(q)
    requires SameTrimmedAttrs(padded.attrs, tag.attrs)
    ensures NewLink(padded, p + text + q, depth) == NewLink(tag, text, depth)
  {
    TrimSpaceIgnoresPadding(p, text, q);
    HrefScanTrimInvariant(padded.attrs, tag.attrs, "");
  }

  /** `Valid` is false exactly when the depth has reached MaxDepth, the text
      or the url is empty, or the lower-cased url contains "javascript". */
  lemma ValidIff(l: Link)
    ensures l.Valid() <==>
      l.depth < MaxDepth && l.text != [] && l.url != [] &&
      !exists i :: OccursAt(ToLower(l.url), ScriptMarker, i)
  {
    ContainsIff(ToLower(l.url), ScriptMarker);
  }

  /** Number of tab characters at the head of a string. */
  function LeadingTabs(s: string): nat {
    if s != [] && s[0] == '\t' then 1 + LeadingTabs(s[1..]) else 0
  }

  lemma {:induction false} LeadingTabsAfterRepeat(n: nat, rest: string)
    ensures LeadingTabs(Repeat('\t', n) + rest) == n + LeadingTabs(rest)
    decreases n
  {
    if n > 0 {
      assert (Repeat('\t', n) + rest)[1..] == Repeat('\t', n - 1) + rest;
      LeadingTabsAfterRepeat(n - 1, rest);
    } else {
      assert Repeat('\t', n) + rest == rest;
    }
  }

  /** A printed line starts with exactly `depth` tabs when the text is
      trimmed, as it is for every link NewLink builds. */
  lemma StringIndentation(l: Link)
    requires l.depth >= 0 && IsTrimmed(l.text)
    ensures LeadingTabs(l.String()) == l.depth
  {
    var rest := l.text + " (" + NatToString(l.depth) + ") - " + l.url;
    assert l.String() == Repeat('\t', l.depth) + rest;
    LeadingTabsAfterRepeat(l.depth, rest);
    assert rest[0] != '\t';
  }
}
