/**
 * The word-processor document as the converter (md2docx.py) builds it:
 * paragraphs that grow by appended runs and hyperlinks, and a document
 * that grows by appended headings, tables, pictures and other blocks.
 * python-docx objects are represented only by what the converter puts
 * into them.
 */
module DocxDoc {
  import opened Wrappers
  import opened Html

  /** The `formatting` dictionary: which of bold, italic and underline are set. */
  datatype Fmt = Fmt(bold: bool, italic: bool, underline: bool)

  /** An empty `formatting` dictionary. */
  const Unformatted := Fmt(false, false, false)

  /** Some flag is set: the run would be given bold, italic or underline. */
  predicate AnyFlag(f: Fmt) {
    f.bold || f.italic || f.underline
  }

  /**
   * What a paragraph holds: a run with its text and the flags set on it, or a
   * hyperlink (`add_hyperlink`) to `url` showing `text`, or the picture at
   * `img` when the linked element contains an image.
   */
  datatype Inline =
    | Run(text: string, fmt: Fmt)
    | Link(url: string, text: string, img: Option<string>)

  /** Paragraph alignment (`WD_ALIGN_PARAGRAPH`). */
  datatype Align = Left | Center | Right

  /**
   * A table cell: the text of its run, whether it is styled as a header
   * (bold run and ADD8E6 shading), the alignment set on its paragraph, if
   * any, and the hyperlinks added after the text.
   */
  datatype Cell = Cell(text: string, header: bool, align: Option<Align>, links: seq<Inline>)

  /** A cell of the pre-sized table that no source cell was written into. */
  const EmptyCell := Cell("", false, None, [])

  /**
   * What a document holds, in order: a heading paragraph with its content,
   * an empty paragraph, a table, the picture (or failure note) for an image
   * source, or a block element handed to the paragraph, list and quote
   * branches of `process_element`, which this model does not follow.
   */
  datatype Block =
    | Heading(level: int, items: seq<Inline>, centered: bool)
    | EmptyPara
    | Table(rows: seq<seq<Cell>>)
    | Picture(src: string)
    | Other(elem: Node)

  /** A paragraph of the document being written. */
  class Paragraph {
    var items: seq<Inline>

    constructor ()
      ensures items == []
    {
      items := [];
    }
  }

  /** The document being written. */
  class Document {
    var blocks: seq<Block>

    constructor ()
      ensures blocks == []
    {
      blocks := [];
    }
  }
}
