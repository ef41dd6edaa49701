/** The tokens that `golang.org/x/net/html`'s tokenizer hands to the
    crawler. The tokenizer itself is not modelled: a page is given as the
    sequence of tokens it would produce. */
module Html {

  /** The seven token types of `html.TokenType`. */
  datatype TokenType =
    | ErrorToken
    | TextToken
    | StartTagToken
    | EndTagToken
    | SelfClosingTagToken
    | CommentToken
    | DoctypeToken

  /** One `key="val"` pair of a tag, in document order. */
  datatype Attribute = Attribute(key: string, val: string)

  /** One token. `isAnchor` stands for `DataAtom == atom.A`, that is, the
      token is an `a` tag; `attrs` is empty for all but tag tokens. */
  datatype Token = Token(kind: TokenType, isAnchor: bool, data: string, attrs: seq<Attribute>)

  predicate IsAnchorStart(t: Token) {
    t.isAnchor && t.kind == StartTagToken
  }

  predicate IsAnchorEnd(t: Token) {
    t.isAnchor && t.kind == EndTagToken
  }
}
