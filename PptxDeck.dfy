/**
 * The presentation as the slide converter (md2pptx.py) builds it: slides
 * appended to a deck, paragraphs appended to a slide's text frame, runs
 * appended to a paragraph. python-pptx objects are represented only by
 * what the converter puts into them.
 */
module PptxDeck {
  import opened Wrappers

  /**
   * A run of a slide paragraph: plain text, bold, italic, in the code font
   * (Courier New), or a link run with the address set when `href` is
   * non-empty.
   */
  datatype PRun =
    | Plain(text: string)
    | Bold(text: string)
    | Italic(text: string)
    | Mono(text: string)
    | Linked(text: string, address: Option<string>)

  /** The `PP_ALIGN` values a table cell can be given. */
  datatype PAlign = AlignLeft | AlignCenter | AlignRight | AlignJustify

  /**
   * A table cell: the alignment of its first paragraph when the source cell
   * has a `style` attribute, and the runs written into that paragraph.
   */
  datatype PCell = PCell(align: Option<PAlign>, runs: seq<PRun>)

  /** A padding cell, whose text is set to `""`. */
  const BlankCell := PCell(None, [])

  /** A paragraph of a text frame: bullet level, font size if set, italic, and its runs. */
  datatype PPara = PPara(level: int, size: Option<int>, italic: bool, runs: seq<PRun>)

  /**
   * A slide the converter adds on its own: one page of paginated text with
   * its font size, a table, or an image with its caption.
   */
  datatype Slide =
    | TextSlide(text: string, size: int)
    | TableSlide(rows: seq<seq<PCell>>)
    | ImageSlide(src: string, caption: string)

  /** A paragraph being filled with runs. */
  class Paragraph {
    var runs: seq<PRun>

    constructor ()
      ensures runs == []
    {
      runs := [];
    }
  }

  /** The text frame of the slide a top-level element is written to. */
  class TextFrame {
    var paras: seq<PPara>

    constructor ()
      ensures paras == []
    {
      paras := [];
    }
  }

  /** The presentation. */
  class Deck {
    var slides: seq<Slide>

    constructor ()
      ensures slides == []
    {
      slides := [];
    }
  }
}
