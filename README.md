# md2docx / md2pptx conversion core in Dafny

This project models the deterministic part of two Markdown converters.
Both converters first render Markdown to HTML and then walk the HTML tree.

- `md2docx.py` writes a Word document.
- `md2pptx.py` writes a PowerPoint deck.

The HTML tree is a value (`Html.Node`, made of elements and text leaves).
What the converters build is modelled by what they put into it:

- `DocxDoc.Document` and `DocxDoc.Paragraph`: a Word document and a paragraph that grow by appended blocks and runs.
- `PptxDeck.Deck`, `PptxDeck.TextFrame` and `PptxDeck.Paragraph`: a deck, a text frame and a paragraph that grow by appended slides, paragraphs and runs.

Every converter routine that appends while it recurses is a `method` that changes these objects.
Each such method is proved to append exactly what a pure function of the input tree says.
The lemmas then state what that function promises: which runs, paragraphs, slides and table cells come out, in what order, and when a conversion raises.

Modules:

- `Strings`, `Wrappers`: Python string helpers used by both converters (`strip`, `split`, ASCII `lower`, `rsplit`). Also `Option`.
- `Html`: the HTML tree and the BeautifulSoup queries used (`get_text`, `stripped_strings`, `find_all`, `find_all(..., recursive=False)`).
- `BlankLines`: the blank-line filter applied to the Markdown text before rendering.
- `DocxHelpers`: `is_block`, the extension and file-name choice of `download_image`, and `get_img_src`.
- `DocxDoc`: the Word document being written.
- `Grids`: table rows and cells, and reading a 2-D array back as rows.
- `DocxTable`: `process_table`, which fills a pre-sized Word table.
- `DocxInline`: `process_inline_children`, `direct_process_inline_children` and the heading branch of `process_element`.
- `PptxText`: `split_text`, `adjust_font_size` and the heading font size.
- `PptxDeck`: the deck being written.
- `PptxInline`: `process_inline_element` and `process_img_element`.
- `PptxTable`: `process_table_element`.
- `PptxBlock`: `process_block_element`, with pagination, headings, quotes and nested lists.

Modelling notes:

- Several outcomes below are modelled as the code behaves, not as it was likely meant.
  - A blank text leaf under bold, italic, underline or code, met before any run was made in that call, touches an unbound `run` and raises.
  - A `table` handed straight to `direct_process_inline_children` raises, because `process_table` gets a run instead of the document.
  - A table with no `tr` raises in `process_table` (`max` of an empty sequence).
  - `process_inline_element` writes a bold or italic element twice: once as one bold/italic run of its whole text, then again run by run as it recurses into the element.
  - A list item's paragraph repeats the text of its nested lists, and each nested list then adds its own paragraphs as well.
  - A `justify` cell alignment is honoured on slides but becomes left in Word.
- Cell alignment lower-cases the style before the lookup (md2docx.py:312, md2pptx.py:113). Case variants of a key therefore match, while whitespace variants fall back to left.
- Pagination packs whole words (md2pptx.py:27-39). A word longer than 800 characters stays whole on its own slide, so that slide exceeds the budget. A first word of 800 characters or more also produces an empty first slide.

## Model

| member | source | states |
|---|---|---|
| BlankLines.SplitLines | md2docx.py:552 | every line it returns is free of line breaks |
| BlankLines.NonBlankLines | md2docx.py:552 | every kept line is non-blank, and no lines are added |
| BlankLines.NonBlankLinesKeepsNonBlank | md2docx.py:552 | lines that are all non-blank are kept unchanged |
| BlankLines.SplitJoinLines | md2docx.py:552 | joining non-empty break-free lines with newlines and splitting again gives the same lines |
| BlankLines.StripBlankLinesLines | md2docx.py:552 | the filtered text's lines are exactly the non-blank lines of the input, in order |
| BlankLines.StripBlankLinesIdempotent | md2pptx.py:311 | filtering blank lines twice is the same as once |
| Strings.Strip | md2docx.py:295 | the result has no leading or trailing whitespace |
| Strings.StripEmpty | md2docx.py:377 | `text.strip()` is empty exactly when the text is all whitespace |
| Strings.StrippedIsFixpoint | md2pptx.py:33 | stripping leaves a string unchanged exactly when it has no outer whitespace |
| Strings.Words | md2pptx.py:27 | `split()` yields only non-empty words without whitespace |
| Strings.BlankHasNoWords | md2pptx.py:27 | an all-whitespace text has no words |
| Strings.WordsOfJoin | md2pptx.py:27-38 | splitting words joined by single spaces gives the words back |
| Strings.StripSpaced | md2pptx.py:33 | stripping a chunk built as word-plus-space removes exactly the last space |
| Strings.Lower | md2docx.py:312 | the result has the same length, and each character is lower-cased |
| Strings.LowerIdempotent | md2pptx.py:113 | lower-casing twice is the same as once |
| Strings.LowerIsLower | md2pptx.py:126 | comparing a name character by character to a lower-case literal is the same as comparing its lower-cased form |
| Strings.LastIndexOf | md2docx.py:81 | the last occurrence of a separator, or -1 exactly when it is absent |
| Strings.BeforeLast | md2docx.py:94 | `rsplit(sep, 1)` splits at the last separator, and the two parts rebuild the string |
| Strings.SplitAtLast | md2docx.py:94 | splitting `a + sep + b` at the last separator returns `a` and `b` when `b` has no separator |
| Html.HeadingLevel | md2docx.py:429 | a heading tag's level is 1 to 6 |
| Html.TextOfAppend | md2pptx.py:131 | the text of two node lists is the concatenation of their texts |
| Html.FindAll | md2docx.py:208 | `find_all` returns only elements with a requested name |
| Html.FindAllInAppend | md2docx.py:208 | searching a node list finds the matches of each part, in order, with repeats kept |
| Html.FindAllInOne | md2docx.py:208 | one node contributes itself when its name is requested, then every match below it, in document order |
| Html.FirstIn | md2docx.py:209-210 | reference definition of the first matching element in pre-order; it always carries the name |
| Html.FindAllInFirst | md2docx.py:208-210 | `find_all(...)[0]` is the first match in pre-order, and the search is empty exactly when there is none |
| Html.DirectChildren | md2pptx.py:166 | `find_all(recursive=False)` returns only direct children with a requested name |
| Html.SelectAppend | md2pptx.py:166 | selecting from a child list selects from each part, in order, with repeats kept |
| Html.SelectOne | md2pptx.py:166 | a single child is kept exactly when it is an element with a requested name |
| Html.FindAllNonEmpty | md2docx.py:208-210 | `find_all` finds something exactly when some descendant has that name |
| Html.FindAllInNonEmpty | md2docx.py:208-210 | over a node list, something is found exactly when some node's subtree holds the name |
| DocxHelpers.BlockTagsAreBlocks | md2docx.py:21-26 | headings, p, div, lists, table, blockquote, img, hr and pre are block tags |
| DocxHelpers.InlineTagsAreNotBlocks | md2docx.py:21-26 | span, a, strong, b, em, i, u, code and li are not block tags |
| DocxHelpers.BaseName | md2docx.py:70-71 | the file name is what follows the last `/` of the URL path, or the whole path when it has none, and holds no `/` |
| DocxHelpers.InferExtension | md2docx.py:73-90 | the extension is always valid; a valid claimed extension wins; otherwise it is `svg` when the body contains `<svg` in its first 1024 bytes, else `jpg` |
| DocxHelpers.ImageSubtypeClaimed | md2docx.py:75-78 | for `image/<subtype>`, the claimed extension is the lower-cased subtype, with `svg+xml` read as `svg` |
| DocxHelpers.ContentTypeDecides | md2docx.py:75-78 | a valid image subtype in Content-Type decides the extension whatever the URL says |
| DocxHelpers.SvgContentType | md2docx.py:77-78 | `image/svg+xml` gives `svg` |
| DocxHelpers.UrlExtensionDecides | md2docx.py:79-81 | without an image Content-Type, a valid URL extension is used, lower-cased |
| DocxHelpers.NoHintsIsJpg | md2docx.py:81 | with no image Content-Type and no dot in the file name, the extension is `jpg` |
| DocxHelpers.UnknownExtensionSniffs | md2docx.py:84-88 | an invalid claimed extension becomes `svg` when the body starts with `<svg` |
| DocxHelpers.ValidExtensionsHaveNoDot | md2docx.py:84 | no valid extension holds a dot or a slash |
| DocxHelpers.SavedNameParts | md2docx.py:92-95 | the saved name splits at its last dot into the URL's stem and the inferred valid extension, and holds no `/` |
| DocxHelpers.GetImgSrc | md2docx.py:195-212 | an `img` gives its own `src`; a source is returned only when the subtree holds an `img`, and none when it does not |
| DocxHelpers.GetImgSrcFirst | md2docx.py:208-212 | below a non-image element, the source is that of the first `img` in document order, or none when no `img` lies below |
| Grids.CellsOf | md2docx.py:289 | a row's cells are all `td` or `th` elements |
| Grids.GridOfCells | md2docx.py:288-295 | an array whose every cell equals the wanted cell reads back as the wanted rows |
| DocxTable.MaxCells | md2docx.py:279 | the column count bounds every row's cell count and equals some row's |
| DocxTable.CellAlign | md2docx.py:306-312 | a cell gets an alignment exactly when it has a `style` attribute |
| DocxTable.CellLinks | md2docx.py:314-315 | one hyperlink per `a` in the cell, to its `href` (or empty), showing its text |
| DocxTable.FillRow | md2docx.py:288-315 | after the call, every cell of row `i` holds its source cell's content, or stays empty past the row's end; other rows are unchanged |
| DocxTable.FillTable | md2docx.py:277-315 | a new rows-by-max-columns array is filled so that it reads back as the table's intended grid |
| DocxTable.ProcessTable | md2docx.py:276-315 | succeeds exactly when the table has a row, and then appends exactly that grid as one table |
| DocxTable.TableShape | md2docx.py:277-280 | one grid row per `tr`, all as wide as the widest row, which some row reaches |
| DocxTable.CellPlacement | md2docx.py:288-295 | cell `(r, c)` holds the stripped text of the row's `c`-th cell, or is empty when the row is shorter |
| DocxTable.HeaderOnlyFirstRow | md2docx.py:298-302 | a cell is styled as a header exactly when it is a filled cell of the first row |
| DocxTable.AlignIgnoresCase | md2docx.py:312 | the alignment of a style equals that of its lower-cased form |
| DocxTable.AlignExactKeys | md2docx.py:306-312 | center and right come exactly from those lower-cased style strings; everything else is left |
| DocxTable.PaddedStyleIsLeft | md2docx.py:312 | a style with leading whitespace always falls back to left |
| DocxInline.ThenAssociative | md2docx.py:374-424 | running three steps in order does not depend on grouping |
| DocxInline.ProcessInlineChildren | md2docx.py:369-424 | succeeds exactly when the intended walk does not raise, and then appends exactly its runs to the paragraph and its blocks to the document |
| DocxInline.InlineChild | md2docx.py:375-423 | the same for one child of the loop |
| DocxInline.ProcessElement | md2docx.py:427-433 | the same for a block element met inside inline content |
| DocxInline.DirectProcessInlineChildren | md2docx.py:318-367 | the same for the single-node variant |
| DocxInline.RunsOnly | md2docx.py:369-424 | specification helper for the walk, not a step of the source: the runs among a paragraph's items, and only runs |
| DocxInline.RunsOnlyOne | md2docx.py:369-424 | specification helper: a single item is kept exactly when it is a run |
| DocxInline.RunsOnlyAppend | md2docx.py:369-424 | specification helper: run filtering distributes over appended output, keeping order |
| DocxInline.WalkRuns | md2docx.py:369-424 | the runs a successful walk writes are exactly the non-blank text leaves outside links, images, tables and blocks, each with the formatting in force |
| DocxInline.KidsRuns | md2docx.py:374-423 | the same from any child index onward |
| DocxInline.ChildRuns | md2docx.py:375-421 | the same for one child |
| DocxInline.RunsKeepFlags | md2docx.py:388-399 | under a set flag, every run written carries that flag and has non-blank text |
| DocxInline.NodeRunsKeepFlags | md2docx.py:388-399 | the same for one node |
| DocxInline.NoFlagWithoutTag | md2docx.py:388-399 | a flag is set on a run only when the formatting in force had it or an enclosing tag sets it |
| DocxInline.NodeNoFlagWithoutTag | md2docx.py:388-399 | the same for one node |
| DocxInline.BlankLeadCrashes | md2docx.py:377-384 | a walk under formatting whose first child is a blank text leaf raises |
| DocxInline.EmphasisOverBlankCrashes | md2docx.py:388-399 | bold, italic, underline or code whose first child is blank raises |
| DocxInline.BlankLeafSkipped | md2docx.py:377-384 | a blank leaf with no flag set, or after a run was made, adds nothing |
| DocxInline.NestedTableFails | md2docx.py:413-415 | an inline table raises exactly when it has no rows; otherwise it adds an empty paragraph and the table |
| DocxInline.DirectTextLeaf | md2docx.py:321-330 | a direct text leaf raises exactly when it is blank and some flag is set; it never adds blocks |
| DocxInline.HeadingContent | md2docx.py:428-433 | a heading becomes a level 1-6 heading first, centered exactly when `align="center"`, holding the unformatted walk's runs |
| PptxText.SplitText | md2pptx.py:22-39 | returns the chunks of the specification function for the text |
| PptxText.PackLoop | md2pptx.py:30-39 | the greedy packing loop returns the chunks of the specification function |
| PptxText.ChunksKeepWords | md2pptx.py:27-39 | the chunks read in order hold exactly the words of the text |
| PptxText.ChunksWellSized | md2pptx.py:30-38 | every chunk is stripped, and is under the budget unless it is a single word |
| PptxText.ChunksEmptyFirst | md2pptx.py:32-34 | the first chunk is empty exactly when the first word alone reaches the budget; no later chunk is empty |
| PptxText.ChunksOfBlank | md2pptx.py:27-39 | a blank text has no chunks |
| PptxText.AdjustFontSize | md2pptx.py:41-50 | the size is between 8 and 36, and 8 for empty text |
| PptxText.FittingTextGetsBaseSize | md2pptx.py:48-50 | non-empty text within the budget gets the full 36 points |
| PptxText.FontSizeNonIncreasing | md2pptx.py:48-50 | longer text never gets a larger font |
| PptxText.HeadingSizes | md2pptx.py:151-157 | h1 to h6 get `42 - 2 * level` points, from 40 down to 30, strictly decreasing |
| PptxInline.KindIgnoresCase | md2pptx.py:198 | the branch an element takes depends only on its lower-cased name |
| PptxInline.PlaceholderRoundTrip | md2pptx.py:242-246 | the alternative text is recoverable from the placeholder, which is bracketed |
| PptxInline.Address | md2pptx.py:202-207 | a link address is set exactly when `href` is present and non-empty |
| PptxInline.ImageSlides | md2pptx.py:252-299 | an image adds one slide exactly when `src` is non-empty, and that slide shows `src` captioned with `alt` |
| PptxInline.JoinAssociative | md2pptx.py:190 | combining three outputs does not depend on grouping |
| PptxInline.InlineFromStep | md2pptx.py:190 | the walk from child `i` is child `i`'s output followed by the walk from `i + 1` |
| PptxInline.ProcessInlineElement | md2pptx.py:185-250 | appends exactly the intended runs to the paragraph and the intended image slides to the deck |
| PptxInline.ProcessInlineChild | md2pptx.py:191-250 | the same for one child |
| PptxInline.AddImageSlide | md2pptx.py:252-299 | appends one slide captioned with `alt` when `src` is non-empty, nothing otherwise |
| PptxInline.PlainTextsAppend | md2pptx.py:190 | collecting plain run texts distributes over appended runs |
| PptxInline.InlinePlainRuns | md2pptx.py:185-250 | the plain runs written are exactly the non-blank text leaves outside links and code, plus a placeholder per image, in document order |
| PptxInline.InlineFromPlainRuns | md2pptx.py:190-250 | the same from any child index onward |
| PptxInline.ChildPlainRuns | md2pptx.py:191-250 | the same for one child |
| PptxInline.EmphasisWrittenTwice | md2pptx.py:208-219 | strong/b and em/i first write their whole text as one bold or italic run, then their plain leaves again |
| PptxInline.BoldTextTwice | md2pptx.py:208-213 | `<strong>s</strong>` yields the runs `Bold(s)` and `Plain(s)` |
| PptxInline.InlineSlidesAreImages | md2pptx.py:240-247 | every slide an inline walk adds is an image slide with a non-empty source |
| PptxInline.InlineFromSlidesAreImages | md2pptx.py:240-247 | the same from any child index onward |
| PptxInline.ChildSlidesAreImages | md2pptx.py:240-247 | the same for one child |
| PptxInline.ImageChild | md2pptx.py:240-247 | an inline image writes its placeholder run, and adds a slide exactly when `src` is non-empty |
| PptxTable.RowsData | md2pptx.py:59-65 | no more data rows than `tr`s, and none empty |
| PptxTable.RowsDataAppend | md2pptx.py:60-65 | collecting from consecutive rows collects from each part, in `tr` order, with repeats kept |
| PptxTable.RowsDataOne | md2pptx.py:61-65 | a single `tr` is kept, as its cell list, exactly when it has a cell |
| PptxTable.RowsDataHas | md2pptx.py:60-65 | every `tr` with a cell is collected |
| PptxTable.RowsDataFrom | md2pptx.py:60-65 | every collected list is the non-empty cell list of some `tr` |
| PptxTable.MaxLen | md2pptx.py:72 | the column count bounds every data row and equals some row's length |
| PptxTable.CellOut | md2pptx.py:101-118 | a cell gets an alignment exactly when it has a `style` attribute |
| PptxTable.CollectRows | md2pptx.py:59-65 | the collecting loop returns the rows-with-cells data |
| PptxTable.FillRow | md2pptx.py:93-120 | after the call, every cell of row `i` holds its cell's output or the blank padding; other rows are unchanged; the row's image slides are appended |
| PptxTable.FillTable | md2pptx.py:89-120 | a new rows-by-columns array reads back as the intended grid, and the images inside cells add their slides in order |
| PptxTable.ProcessTableElement | md2pptx.py:52-120 | appends exactly the intended table slide, followed by the slides of images inside its cells |
| PptxTable.RowsDataCells | md2pptx.py:60-63 | every collected cell is a `td`/`th` element |
| PptxTable.RowsDataMembers | md2pptx.py:59-65 | a data row is exactly a non-empty cell list of some `tr` |
| PptxTable.NoCellsNoSlide | md2pptx.py:59-68 | a table adds no slide exactly when no `tr` has a cell |
| PptxTable.TableSlideShape | md2pptx.py:70-89 | the table slide has one row per data row, all as wide as the widest row, which some row reaches |
| PptxTable.PGridShape | md2pptx.py:89 | the grid has the requested numbers of rows and columns |
| PptxTable.CellPlacement | md2pptx.py:93-120 | cell `(i, j)` holds row `i`'s `j`-th cell's output, or the blank padding past the row's end |
| PptxTable.RowSlidesAreImages | md2pptx.py:118 | a row adds only image slides with non-empty sources |
| PptxTable.TableImageSlidesAreImages | md2pptx.py:93-118 | the cells add only image slides with non-empty sources |
| PptxTable.OneTableSlide | md2pptx.py:75-118 | after the first slide, a table adds only image slides: exactly one table slide |
| PptxTable.PAlignIgnoresCase | md2pptx.py:113 | the alignment of a style equals that of its lower-cased form |
| PptxTable.PAlignExactKeys | md2pptx.py:106-113 | center, right and justify come exactly from those lower-cased style strings; everything else is left |
| PptxTable.ConvertersAgreeButJustify | md2pptx.py:106-113 | the two converters agree on center and right, but justify is justify on slides and left in Word |
| PptxBlock.ParaSize | md2pptx.py:150-157 | a paragraph gets a font size exactly when its tag is a heading |
| PptxBlock.HeadingNameTag | md2pptx.py:151-153 | a heading name, lower-cased, is a heading tag whose level is its digit |
| PptxBlock.ThenAssociative | md2pptx.py:166-173 | running three steps in order does not depend on grouping |
| PptxBlock.PageSlides | md2pptx.py:138-144 | one slide per chunk |
| PptxBlock.Items | md2pptx.py:166 | list items are direct children |
| PptxBlock.SubLists | md2pptx.py:172 | nested lists are direct `ul`/`ol` children of the item |
| PptxBlock.ItemsFromStep | md2pptx.py:166-173 | the items from `i` are item `i`, then the items from `i + 1` |
| PptxBlock.SubsFromStep | md2pptx.py:172-173 | the nested lists from `j` are list `j` one level deeper, then the rest |
| PptxBlock.ProcessBlockElement | md2pptx.py:121-183 | appends exactly the intended paragraphs to the frame and slides to the deck |
| PptxBlock.Paginate | md2pptx.py:138-144 | appends one text slide per chunk |
| PptxBlock.ProcessList | md2pptx.py:165-173 | appends exactly the intended paragraphs and slides of all items |
| PptxBlock.ProcessItem | md2pptx.py:166-173 | appends the item's paragraph, then its nested lists' paragraphs and slides |
| PptxBlock.ProcessSubLists | md2pptx.py:172-173 | appends exactly what the item's nested lists produce, one level deeper |
| PptxBlock.PageSlidesAt | md2pptx.py:138-144 | slide `k` shows chunk `k` at the size adjusted to that chunk |
| PptxBlock.Pagination | md2pptx.py:129-145 | a `p`/`div` over 800 characters adds no paragraph, and one slide per chunk sized 8 to 36; in order the slides hold every word |
| PptxBlock.ShortParagraph | md2pptx.py:147-162 | a `p`/`div` up to 800 characters is one paragraph at the bullet level, with no size set |
| PptxBlock.HeadingParagraph | md2pptx.py:147-162 | `h1`-`h6` is one paragraph at the bullet level, sized `42 - 2 * level` (30 to 40) |
| PptxBlock.QuoteParagraph | md2pptx.py:159-162 | a blockquote is one italic paragraph at the bullet level |
| PptxBlock.OtherParagraph | md2pptx.py:179-183 | any other tag is one paragraph at level 0, sized by its text, whatever the bullet level |
| PptxBlock.AtLevelAppend | md2pptx.py:167-173 | selecting one level's paragraphs distributes over appended paragraphs |
| PptxBlock.AtLevelDeeper | md2pptx.py:173 | paragraphs all deeper than a level contribute none at that level |
| PptxBlock.ItemParas | md2pptx.py:166-170 | one paragraph per item |
| PptxBlock.NotShallowerAppend | md2pptx.py:166-173 | appended paragraph lists that are at or below a level stay so |
| PptxBlock.SubListIsList | md2pptx.py:165 | a nested `ul`/`ol` is handled as a list |
| PptxBlock.ListParagraphs | md2pptx.py:165-173 | a list's paragraphs are never shallower than its level, and those at its level are exactly one per item, in order, sized by the whole list's text |
| PptxBlock.ItemsFromParagraphs | md2pptx.py:166-173 | the same from any item index onward |
| PptxBlock.ItemParagraphs | md2pptx.py:166-173 | an item adds exactly one paragraph at its level, holding the item's inline runs |
| PptxBlock.SubsFromParagraphs | md2pptx.py:172-173 | nested lists add paragraphs only below the item's level |
| PptxBlock.ItemRepeatsSubLists | md2pptx.py:166-173 | an item's paragraph holds the plain text of all its leaves, nested lists included |
| PptxBlock.NestedItemTextTwice | md2pptx.py:165-173 | `<li>s<ul><li>t</li></ul></li>` gives a paragraph with runs `s`, `t`, then a deeper paragraph with `t` again |
| PptxBlock.UlIsNested | md2pptx.py:248-250 | a `ul` met inline is walked through like any other tag |
| PptxBlock.OneSubList | md2pptx.py:172 | an item whose second child is its only element, a `ul`, has exactly that nested list |
| PptxBlock.OneItemList | md2pptx.py:165-173 | a `ul` with one text item gives one paragraph with that text, sized by it |
| PptxBlock.TwoChildren | md2pptx.py:190 | an element with two children emits the first child's output, then the second's |
| PptxBlock.OnlyChild | md2pptx.py:190 | an element with one child emits exactly that child's output |

## Left out

- Network, files and threads: `download_image` fetching, the 5-second thread join, saving files, `svg_to_png` (cairosvg), and reading and writing the `.md`, `.docx` and `.pptx` files. Only the extension and file-name choice is modelled. The response body and its headers are parameters.
- Markdown rendering (markdown2) and HTML parsing (BeautifulSoup) are foreign code. The parsed tree is the input.
- python-docx and python-pptx object building: fonts and font names, shading colour, word wrap, geometry and slide layouts. Only what the converters put into the objects is kept.
- `print` output is not modelled.
- The top-level loops of `md_to_docx`, `test_md_to_docx` and `md_to_pptx`, including the slide made for bare top-level text, are not modelled. So is `main`.
- The paragraph, div, list, blockquote and fallback branches of `process_element` (md2docx.py:435-507) are not modelled. A block met inside inline content is recorded as `Other(element)`.
- `DocxInline.ProcessElement`: reports success for `Other(element)`. Those branches call `process_inline_children` and `direct_process_inline_children`, so they can raise just as `EmphasisOverBlankCrashes` shows, and those raises are not modelled.
- `doc_image_insert` and `_doc_image_process` are reduced to a picture block for a non-empty `src`. A picture that fails to load, and its failure note, are not modelled.
- `add_hyperlink` is reduced to the URL, the text and the first image source it finds.
- `PptxInline.AddImageSlide`: the caption is always recorded as `alt`. In the source it is added only when inserting the picture succeeds (md2pptx.py:287-299).
- `PptxTable.FillRow`: always writes into the cell's first paragraph. python-pptx cells always have one, so the `tf.add_paragraph()` branch (md2pptx.py:116-117) is never taken.
- `PptxText.AdjustFontSize`: takes `36 * 800 / len` as an exact integer floor. The source computes it in floating point, which can round differently at exact boundaries.
- `Strings.Lower`: lower-cases ASCII letters only. Python's `str.lower` also folds non-ASCII letters.
- objmd2pptx.py is not part of this model.
