/**
 * The rich-text body of an idea: a list of blocks, each holding a list of
 * spans. Keys, styles, marks and mark definitions are not modelled.
 */
module PortableText {
  import opened Wrappers

  /** A child of a block: its `_type` and its `text`, which may be missing. */
  datatype Span = Span(typ: string, text: Option<string>)

  /** An entry of a body: its `_type` and its `children`, which may be missing. */
  datatype Block = Block(typ: string, children: Option<seq<Span>>)

  /** The body the server actions write for a description: a single `block`
      whose single `span` holds the description. */
  function DescriptionBody(description: string): seq<Block> {
    [Block("block", Some([Span("span", Some(description))]))]
  }
}
