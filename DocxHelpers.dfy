/**
 * The small pure helpers of the word-processor converter (md2docx.py):
 * the block-tag classifier, the file name and extension chosen for a
 * downloaded image, and the search for an image inside a link or cell.
 */
module DocxHelpers {
  import opened Wrappers
  import opened Strings
  import opened Html

  newtype byte = x: int | 0 <= x < 256

  /**
   * The tag names `is_block` lists (md2docx.py:22-25); the list names
   * `video` twice, which a set does not distinguish.
   */
  const BlockTags: set<string> := {
    "body", "p", "div", "h1", "h2", "h3", "h4", "h5", "h6",
    "ul", "ol", "table", "blockquote", "pre", "article", "aside",
    "canvas", "details", "figcaption", "figure", "footer", "header",
    "hr", "main", "nav", "section", "summary", "video", "form", "menu", "img"}

  /** `is_block(tag)`: a text leaf has no tag name and is never a block. */
  predicate IsBlock(n: Node) {
    n.Elem? && n.name in BlockTags
  }

  /** Headings, paragraphs, lists, tables, quotes, rules, preformatted text and images are blocks. */
  lemma BlockTagsAreBlocks(attrs: map<string, string>, ch: seq<Node>)
    ensures IsBlock(Elem("h1", attrs, ch)) && IsBlock(Elem("h6", attrs, ch))
    ensures IsBlock(Elem("p", attrs, ch)) && IsBlock(Elem("div", attrs, ch))
    ensures IsBlock(Elem("ul", attrs, ch)) && IsBlock(Elem("ol", attrs, ch))
    ensures IsBlock(Elem("table", attrs, ch)) && IsBlock(Elem("blockquote", attrs, ch))
    ensures IsBlock(Elem("img", attrs, ch)) && IsBlock(Elem("hr", attrs, ch)) && IsBlock(Elem("pre", attrs, ch))
  {
  }

  /** Emphasis, links, code, spans, list items and table cells are not. */
  lemma InlineTagsAreNotBlocks(attrs: map<string, string>, ch: seq<Node>)
    ensures !IsBlock(Elem("span", attrs, ch)) && !IsBlock(Elem("a", attrs, ch))
    ensures !IsBlock(Elem("strong", attrs, ch)) && !IsBlock(Elem("b", attrs, ch))
    ensures !IsBlock(Elem("em", attrs, ch)) && !IsBlock(Elem("i", attrs, ch))
    ensures !IsBlock(Elem("u", attrs, ch)) && !IsBlock(Elem("code", attrs, ch))
    ensures !IsBlock(Elem("li", attrs, ch))
  {
  }

  /** The extensions a downloaded image may be saved under (md2docx.py:84). */
  const ValidExtensions: set<string> := {"png", "jpg", "jpeg", "gif", "webp", "bmp", "svg"}

  /** The bytes of `b'<svg'`. */
  const SvgMarker: seq<byte> := [60, 115, 118, 103]

  /** `s.split(sep)[-1]`: the text after the last separator, or all of `s`. */
  function LastSegment(s: string, sep: char): (r: string)
    ensures sep !in r
  {
    if sep in s then AfterLast(s, sep) else s
  }

  /** `os.path.basename(path)` for a URL path. */
  function BaseName(path: string): (r: string)
    ensures '/' !in r
    ensures '/' in path ==> path == BeforeLast(path, '/') + "/" + r
    ensures '/' !in path ==> r == path
  {
    LastSegment(path, '/')
  }

  /** The Content-Type announces an image (md2docx.py:75). */
  predicate ImageContentType(contentType: string) {
    Contains(contentType, "image/") || Contains(contentType, "application/svg+xml")
  }

  /** The extension before validation: from the Content-Type, else from the file name, else `jpg`. */
  function ClaimedExtension(contentType: string, fileName: string): string {
    if ImageContentType(contentType) then
      var ext := Lower(LastSegment(contentType, '/'));
      if ext == "svg+xml" then "svg" else ext
    else if '.' in fileName then Lower(AfterLast(fileName, '.'))
    else "jpg"
  }

  /** `b'<svg' in response.content[:1024]`. */
  predicate SniffsSvg(body: seq<byte>) {
    Contains(if |body| <= 1024 then body else body[..1024], SvgMarker)
  }

  /** The extension `download_image` settles on (md2docx.py:74-90). */
  function InferExtension(contentType: string, fileName: string, body: seq<byte>): (ext: string)
    ensures ext in ValidExtensions
    ensures ClaimedExtension(contentType, fileName) in ValidExtensions ==> ext == ClaimedExtension(contentType, fileName)
    ensures ClaimedExtension(contentType, fileName) !in ValidExtensions ==> ext == (if SniffsSvg(body) then "svg" else "jpg")
  {
    var ext := ClaimedExtension(contentType, fileName);
    if ext in ValidExtensions then ext
    else if SniffsSvg(body) then "svg"
    else "jpg"
  }

  /** The file name with its last extension dropped (md2docx.py:93-94). */
  function Stem(fileName: string): string {
    if '.' in fileName then BeforeLast(fileName, '.') else fileName
  }

  /** The name the image is saved under: stem, a dot, the inferred extension (md2docx.py:95). */
  function SavedName(urlPath: string, contentType: string, body: seq<byte>): string {
    var fileName := BaseName(urlPath);
    Stem(fileName) + "." + InferExtension(contentType, fileName, body)
  }

  lemma ValidExtensionsHaveNoDot()
    ensures forall e :: e in ValidExtensions ==> '.' !in e && '/' !in e
  {
  }

  /**
   * The saved name splits back, at its last dot, into the URL's stem and the
   * inferred extension; it never contains a `/`, so the file lands directly in
   * the save folder whatever the URL path is.
   */
  lemma SavedNameParts(urlPath: string, contentType: string, body: seq<byte>)
    ensures var name := SavedName(urlPath, contentType, body);
            var fileName := BaseName(urlPath);
            '.' in name
            && BeforeLast(name, '.') == Stem(fileName)
            && AfterLast(name, '.') == InferExtension(contentType, fileName, body)
            && AfterLast(name, '.') in ValidExtensions
            && '/' !in name
  {
    var fileName := BaseName(urlPath);
    var ext := InferExtension(contentType, fileName, body);
    ValidExtensionsHaveNoDot();
    var name := SavedName(urlPath, contentType, body);
    assert name == Stem(fileName) + ['.'] + ext;
    assert name[|Stem(fileName)|] == '.';
    SplitAtLast(Stem(fileName), '.', ext);
    assert '/' !in Stem(fileName) by {
      if '.' in fileName {
        assert fileName == BeforeLast(fileName, '.') + ['.'] + AfterLast(fileName, '.');
      }
    }
  }

  /** For `image/<subtype>` the claimed extension is the lower-cased subtype, `svg+xml` read as `svg`. */
  lemma ImageSubtypeClaimed(subtype: string, fileName: string)
    requires '/' !in subtype
    ensures ImageContentType("image/" + subtype)
    ensures ClaimedExtension("image/" + subtype, fileName) == if Lower(subtype) == "svg+xml" then "svg" else Lower(subtype)
  {
    var ct := "image/" + subtype;
    ContainsAt(ct, "image/", 0);
    assert ct == "image" + ['/'] + subtype;
    SplitAtLast("image", '/', subtype);
  }

  /** An `image/<subtype>` Content-Type decides the extension, case-insensitively. */
  lemma ContentTypeDecides(subtype: string, fileName: string, body: seq<byte>)
    requires '/' !in subtype
    requires Lower(subtype) in ValidExtensions
    ensures InferExtension("image/" + subtype, fileName, body) == Lower(subtype)
  {
    ImageSubtypeClaimed(subtype, fileName);
    assert Lower(subtype) != "svg+xml";
  }

  /** `image/svg+xml`, in any letter case, is saved as `svg`. */
  lemma SvgContentType(subtype: string, fileName: string, body: seq<byte>)
    requires '/' !in subtype && Lower(subtype) == "svg+xml"
    ensures InferExtension("image/" + subtype, fileName, body) == "svg"
  {
    ImageSubtypeClaimed(subtype, fileName);
  }

  /** Without an image Content-Type, the URL's own valid extension is kept. */
  lemma UrlExtensionDecides(contentType: string, stem: string, ext: string, body: seq<byte>)
    requires !ImageContentType(contentType)
    requires '.' !in ext && Lower(ext) in ValidExtensions
    ensures InferExtension(contentType, stem + "." + ext, body) == Lower(ext)
  {
    assert stem + "." + ext == stem + ['.'] + ext;
    assert (stem + "." + ext)[|stem|] == '.';
    SplitAtLast(stem, '.', ext);
  }

  /** With neither an image Content-Type nor a dot in the file name, the extension is `jpg` and the body is never looked at. */
  lemma NoHintsIsJpg(contentType: string, fileName: string, body: seq<byte>)
    requires !ImageContentType(contentType) && '.' !in fileName
    ensures InferExtension(contentType, fileName, body) == "jpg"
  {
  }

  /** An unusable claimed extension falls back to the body sniff. */
  lemma UnknownExtensionSniffs(contentType: string, fileName: string, body: seq<byte>)
    requires ClaimedExtension(contentType, fileName) !in ValidExtensions
    requires |body| >= 4 && body[..4] == SvgMarker
    ensures InferExtension(contentType, fileName, body) == "svg"
  {
    var head := if |body| <= 1024 then body else body[..1024];
    assert head[..4] == SvgMarker;
  }

  /**
   * `get_img_src`: the `src` of the element itself when it is an `img`,
   * otherwise of the first `img` below it (md2docx.py:195-212).
   */
  function GetImgSrc(n: Node): (r: Option<string>)
    requires n.Elem?
    ensures r.Some? ==> InSubtree(n, "img")
    ensures !InSubtree(n, "img") ==> r == None
    ensures n.name == "img" ==> r == Attr(n, "src")
  {
    FindAllNonEmpty(n, "img");
    if n.name == "img" then Attr(n, "src")
    else
      var imgs := FindAll(n, {"img"});
      if imgs != [] then Attr(imgs[0], "src") else None
  }

  /**
   * Below a non-image element, the source is that of the first `img` in
   * document order, and there is none when no `img` lies below.
   */
  lemma GetImgSrcFirst(n: Node)
    requires n.Elem? && n.name != "img"
    ensures FirstIn(n.children, "img").None? ==> GetImgSrc(n) == None
    ensures FirstIn(n.children, "img").Some? ==> GetImgSrc(n) == Attr(FirstIn(n.children, "img").value, "src")
  {
    FindAllInFirst(n.children, "img");
  }
}
