/**
  `CommonBuilderWriter`: the append-only sink the generator writes to. It wraps
  a `StringBuilder`; here the builder's text is the field `contents`.
 */
module Support {

  import opened Utf16

  class CommonBuilderWriter {
    var contents: Text

    /** Wraps a builder that already holds `initial`. */
    constructor (initial: Text)
      ensures contents == initial
    {
      contents := initial;
    }

    /** Appends `chars` and returns this writer, so that writes can be chained. */
    method Write(chars: Text) returns (self: CommonBuilderWriter)
      modifies this
      ensures self == this
      ensures contents == old(contents) + chars
    {
      contents := contents + chars;
      self := this;
    }

    /** The text appended so far, after whatever the wrapped builder held. */
    method ToString() returns (s: Text)
      ensures s == contents
    {
      s := contents;
    }
  }
}
