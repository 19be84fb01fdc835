/**
 * `process_block_element` (md2pptx.py:121-183): one top-level element
 * written to the text frame of its slide, or to slides of its own.
 *
 * A `p` or `div` whose text is longer than 800 characters is paginated
 * into one text slide per chunk and nothing goes to the frame. Headings,
 * paragraphs and quotes give one paragraph at the bullet level; a list
 * gives one paragraph per direct `li` and its direct sub-lists one level
 * deeper; tables and images add slides; anything else is one paragraph
 * sized by its text.
 */
module PptxBlock {
  import opened Wrappers
  import opened Strings
  import opened Html
  import opened PptxText
  import opened PptxDeck
  import opened PptxInline
  import opened PptxTable

  /** The branch an element takes, by its lower-cased tag name and, for `p` and `div`, its length. */
  datatype BlockKind = Paginated | Para | List | TableBlock | Image | Other

  /** `tag` starts with `h` among the paragraph tags: `h1` to `h6`, in any case. */
  predicate IsHeadingName(name: string) {
    |name| == 2 && LowerChar(name[0]) == 'h' && '1' <= name[1] <= '6'
  }

  function BlockKindOf(e: Node): BlockKind
    requires e.Elem?
  {
    var n := e.name;
    if LowerIs(n, "p") || LowerIs(n, "div") then
      if |GetText(e)| > MaxCharsPerSlide then Paginated else Para
    else if IsHeadingName(n) || LowerIs(n, "blockquote") then Para
    else if LowerIs(n, "ul") || LowerIs(n, "ol") then List
    else if LowerIs(n, "table") then TableBlock
    else if LowerIs(n, "img") then Image
    else Other
  }

  /** The font size of a paragraph-tag paragraph: set for headings only. */
  function ParaSize(name: string): (size: Option<int>)
    ensures size.Some? <==> IsHeadingName(name)
  {
    if IsHeadingName(name) then
      HeadingNameTag(name);
      Some(HeadingFontSize(Lower(name)))
    else None
  }

  /** A heading name lower-cases to a heading tag with the same digit. */
  lemma HeadingNameTag(name: string)
    requires IsHeadingName(name)
    ensures IsHeadingTag(Lower(name)) && HeadingLevel(Lower(name)) == name[1] as int - '0' as int
  {
  }

  /** What a block adds: paragraphs to the frame and slides to the deck. */
  datatype Effect = Effect(paras: seq<PPara>, slides: seq<Slide>)

  const NoEffect := Effect([], [])

  function Then(a: Effect, b: Effect): Effect {
    Effect(a.paras + b.paras, a.slides + b.slides)
  }

  lemma ThenAssociative(a: Effect, b: Effect, c: Effect)
    ensures Then(Then(a, b), c) == Then(a, Then(b, c))
  {
  }

  /** The paragraph a walked element gives, and the image slides of its walk. */
  function Walked(e: Node, level: int, size: Option<int>, italic: bool): Effect
    requires e.Elem?
  {
    var o := InlineOf(e);
    Effect([PPara(level, size, italic, o.runs)], o.slides)
  }

  /** One text slide per chunk, its size adjusted to the chunk. */
  function PageSlides(chunks: seq<string>): (r: seq<Slide>)
    ensures |r| == |chunks|
    decreases |chunks|
  {
    if chunks == [] then []
    else
      var last := chunks[|chunks| - 1];
      PageSlides(chunks[..|chunks| - 1]) + [TextSlide(last, AdjustFontSize(last, MaxCharsPerSlide))]
  }

  /** `process_block_element(presentation, e, text_frame, level)`. */
  function BlockOf(e: Node, level: int): Effect
    requires e.Elem?
    decreases e, 2, 0
  {
    match BlockKindOf(e)
    case Paginated => Effect([], PageSlides(Chunks(GetText(e), MaxCharsPerSlide)))
    case Para => Walked(e, level, ParaSize(e.name), LowerIs(e.name, "blockquote"))
    case List => ItemsFrom(e, 0, level)
    case TableBlock => Effect([], TableSlides(e))
    case Image => Effect([], ImageSlides(e))
    case Other => Walked(e, 0, Some(AdjustFontSize(GetText(e), MaxCharsPerSlide)), false)
  }

  /** The direct `li` children of a list. */
  function Items(e: Node): (r: seq<Node>)
    ensures forall k :: 0 <= k < |r| ==> r[k].Elem? && r[k] in Children(e)
  {
    DirectChildren(e, {"li"})
  }

  /** The direct `ul` and `ol` children of a list item. */
  function SubLists(li: Node): (r: seq<Node>)
    ensures forall k :: 0 <= k < |r| ==> r[k].Elem? && r[k].name in {"ul", "ol"} && r[k] in Children(li)
  {
    DirectChildren(li, {"ul", "ol"})
  }

  /** The font size of every item paragraph of list `e`: adjusted to the text of the whole list. */
  function ListSize(e: Node): int {
    AdjustFontSize(GetText(e), MaxCharsPerSlide)
  }

  /** The loop over the items of list `e` from the `i`-th on. */
  function ItemsFrom(e: Node, i: nat, level: int): Effect
    requires e.Elem? && i <= |Items(e)|
    decreases e, 1, |Items(e)| - i
  {
    if i == |Items(e)| then NoEffect
    else
      var li := Items(e)[i];
      assert li in e.children;
      Then(ItemOf(li, ListSize(e), level), ItemsFrom(e, i + 1, level))
  }

  /** One item: its paragraph, then its sub-lists one level deeper. */
  function ItemOf(li: Node, size: int, level: int): Effect
    requires li.Elem?
    decreases li, 2, 0
  {
    Then(Walked(li, level, Some(size), false), SubsFrom(li, 0, level + 1))
  }

  /** The loop over the sub-lists of item `li` from the `j`-th on. */
  function SubsFrom(li: Node, j: nat, level: int): Effect
    requires li.Elem? && j <= |SubLists(li)|
    decreases li, 1, |SubLists(li)| - j
  {
    if j == |SubLists(li)| then NoEffect
    else
      var sub := SubLists(li)[j];
      assert sub in li.children;
      Then(BlockOf(sub, level), SubsFrom(li, j + 1, level))
  }

  lemma ItemsFromStep(e: Node, i: nat, level: int)
    requires e.Elem? && i < |Items(e)|
    ensures Items(e)[i] < e
    ensures ItemsFrom(e, i, level) == Then(ItemOf(Items(e)[i], ListSize(e), level), ItemsFrom(e, i + 1, level))
  {
    assert Items(e)[i] in e.children;
  }

  lemma SubsFromStep(li: Node, j: nat, level: int)
    requires li.Elem? && j < |SubLists(li)|
    ensures SubLists(li)[j] < li
    ensures SubsFrom(li, j, level) == Then(BlockOf(SubLists(li)[j], level), SubsFrom(li, j + 1, level))
  {
    assert SubLists(li)[j] in li.children;
  }

  /** `process_block_element`. */
  method ProcessBlockElement(e: Node, frame: TextFrame, deck: Deck, level: int)
    requires e.Elem?
    modifies frame, deck
    decreases e, 2, 0
    ensures frame.paras == old(frame.paras) + BlockOf(e, level).paras
    ensures deck.slides == old(deck.slides) + BlockOf(e, level).slides
  {
    var kind := BlockKindOf(e);
    match kind
    case Paginated =>
      var chunks := SplitText(GetText(e), MaxCharsPerSlide);
      Paginate(chunks, deck);
    case Para =>
      ghost var walked := Walked(e, level, ParaSize(e.name), LowerIs(e.name, "blockquote"));
      assert BlockOf(e, level) == walked;
      var p := new Paragraph();
      ProcessInlineElement(e, p, deck);
      assert frame.paras == old(frame.paras);
      assert p.runs == InlineOf(e).runs;
      frame.paras := frame.paras + [PPara(level, ParaSize(e.name), LowerIs(e.name, "blockquote"), p.runs)];
      assert frame.paras == old(frame.paras) + walked.paras;
    case List =>
      ProcessList(e, frame, deck, level);
    case TableBlock =>
      ProcessTableElement(e, deck);
    case Image =>
      AddImageSlide(e, deck);
    case Other =>
      var p := new Paragraph();
      var size := AdjustFontSize(GetText(e), MaxCharsPerSlide);
      ghost var walked := Walked(e, 0, Some(size), false);
      assert BlockOf(e, level) == walked;
      ProcessInlineElement(e, p, deck);
      assert frame.paras == old(frame.paras);
      assert p.runs == InlineOf(e).runs;
      frame.paras := frame.paras + [PPara(0, Some(size), false, p.runs)];
      assert frame.paras == old(frame.paras) + walked.paras;
  }

  /** The pagination loop: a new slide for each chunk. */
  method Paginate(chunks: seq<string>, deck: Deck)
    modifies deck
    ensures deck.slides == old(deck.slides) + PageSlides(chunks)
  {
    for i := 0 to |chunks|
      invariant deck.slides == old(deck.slides) + PageSlides(chunks[..i])
    {
      assert chunks[..i + 1][..i] == chunks[..i];
      deck.slides := deck.slides + [TextSlide(chunks[i], AdjustFontSize(chunks[i], MaxCharsPerSlide))];
    }
    assert chunks[..|chunks|] == chunks;
  }

  /** The loop over the direct `li` children of a list. */
  method ProcessList(e: Node, frame: TextFrame, deck: Deck, level: int)
    requires e.Elem?
    modifies frame, deck
    decreases e, 1, 0
    ensures frame.paras == old(frame.paras) + ItemsFrom(e, 0, level).paras
    ensures deck.slides == old(deck.slides) + ItemsFrom(e, 0, level).slides
  {
    var items := Items(e);
    var i := 0;
    ghost var done := NoEffect;
    while i < |items|
      invariant i <= |items|
      invariant Then(done, ItemsFrom(e, i, level)) == ItemsFrom(e, 0, level)
      invariant frame.paras == old(frame.paras) + done.paras
      invariant deck.slides == old(deck.slides) + done.slides
    {
      var li := items[i];
      ItemsFromStep(e, i, level);
      ghost var step := ItemOf(li, ListSize(e), level);
      ghost var rest := ItemsFrom(e, i + 1, level);
      ThenAssociative(done, step, rest);
      ProcessItem(li, ListSize(e), frame, deck, level);
      AppendAssociative(old(frame.paras), done.paras, step.paras);
      AppendAssociative(old(deck.slides), done.slides, step.slides);
      done := Then(done, step);
      i := i + 1;
    }
  }

  /** One item: its paragraph, walked, then each direct sub-list one level deeper. */
  method ProcessItem(li: Node, size: int, frame: TextFrame, deck: Deck, level: int)
    requires li.Elem?
    modifies frame, deck
    decreases li, 2, 0
    ensures frame.paras == old(frame.paras) + ItemOf(li, size, level).paras
    ensures deck.slides == old(deck.slides) + ItemOf(li, size, level).slides
  {
    var p := new Paragraph();
    ProcessInlineElement(li, p, deck);
    assert frame.paras == old(frame.paras);
    assert p.runs == InlineOf(li).runs;
    frame.paras := frame.paras + [PPara(level, Some(size), false, p.runs)];
    assert frame.paras == old(frame.paras) + Walked(li, level, Some(size), false).paras;
    assert deck.slides == old(deck.slides) + Walked(li, level, Some(size), false).slides;
    ProcessSubLists(li, frame, deck, level + 1);
  }

  /** The loop over the direct sub-lists of an item. */
  method ProcessSubLists(li: Node, frame: TextFrame, deck: Deck, level: int)
    requires li.Elem?
    modifies frame, deck
    decreases li, 1, 0
    ensures frame.paras == old(frame.paras) + SubsFrom(li, 0, level).paras
    ensures deck.slides == old(deck.slides) + SubsFrom(li, 0, level).slides
  {
    var subs := SubLists(li);
    var j := 0;
    ghost var done := NoEffect;
    while j < |subs|
      invariant j <= |subs|
      invariant Then(done, SubsFrom(li, j, level)) == SubsFrom(li, 0, level)
      invariant frame.paras == old(frame.paras) + done.paras
      invariant deck.slides == old(deck.slides) + done.slides
    {
      var sub := subs[j];
      SubsFromStep(li, j, level);
      ghost var step := BlockOf(sub, level);
      ghost var rest := SubsFrom(li, j + 1, level);
      ThenAssociative(done, step, rest);
      ProcessBlockElement(sub, frame, deck, level);
      AppendAssociative(old(frame.paras), done.paras, step.paras);
      AppendAssociative(old(deck.slides), done.slides, step.slides);
      done := Then(done, step);
      j := j + 1;
    }
  }

  /** Slide `k` of the pages shows chunk `k` at the size adjusted to it. */
  lemma {:induction false} PageSlidesAt(chunks: seq<string>)
    ensures forall k :: 0 <= k < |chunks| ==>
              PageSlides(chunks)[k] == TextSlide(chunks[k], AdjustFontSize(chunks[k], MaxCharsPerSlide))
    decreases |chunks|
  {
    if chunks != [] {
      var init := chunks[..|chunks| - 1];
      PageSlidesAt(init);
      assert forall k :: 0 <= k < |init| ==> init[k] == chunks[k];
    }
  }

  /**
   * A `p` or `div` longer than 800 characters adds nothing to the frame and
   * one slide per chunk of its text, each sized between 8 and 36 points;
   * read in order, the slides hold every word of the text.
   */
  lemma Pagination(e: Node, level: int)
    requires e.Elem? && (LowerIs(e.name, "p") || LowerIs(e.name, "div"))
    requires |GetText(e)| > MaxCharsPerSlide
    ensures BlockOf(e, level).paras == []
    ensures var chunks := Chunks(GetText(e), MaxCharsPerSlide);
      |BlockOf(e, level).slides| == |chunks| &&
      forall k :: 0 <= k < |chunks| ==>
        BlockOf(e, level).slides[k] == TextSlide(chunks[k], AdjustFontSize(chunks[k], MaxCharsPerSlide)) &&
        MinFontSize <= BlockOf(e, level).slides[k].size <= BaseFontSize
    ensures WordsOfChunks(Chunks(GetText(e), MaxCharsPerSlide)) == Words(GetText(e))
  {
    PageSlidesAt(Chunks(GetText(e), MaxCharsPerSlide));
    ChunksKeepWords(GetText(e), MaxCharsPerSlide);
  }

  /** Up to 800 characters, a `p` or `div` is one paragraph at the bullet level, with no size set. */
  lemma ShortParagraph(e: Node, level: int)
    requires e.Elem? && (LowerIs(e.name, "p") || LowerIs(e.name, "div"))
    requires |GetText(e)| <= MaxCharsPerSlide
    ensures BlockOf(e, level).paras == [PPara(level, None, false, InlineOf(e).runs)]
    ensures BlockOf(e, level).slides == InlineOf(e).slides
  {
    assert !IsHeadingName(e.name);
  }

  /** `h1` to `h6` give one paragraph of 40, 38, ..., 30 points at the bullet level. */
  lemma HeadingParagraph(e: Node, level: int)
    requires e.Elem? && IsHeadingName(e.name)
    ensures |BlockOf(e, level).paras| == 1
    ensures var para := BlockOf(e, level).paras[0];
      para.level == level && !para.italic && para.runs == InlineOf(e).runs &&
      para.size == Some(42 - 2 * (e.name[1] as int - '0' as int)) &&
      30 <= para.size.value <= 40
  {
    HeadingNameTag(e.name);
    HeadingSizes(Lower(e.name), Lower(e.name));
  }

  /** A quote is one italic paragraph at the bullet level, with no size set. */
  lemma QuoteParagraph(e: Node, level: int)
    requires e.Elem? && LowerIs(e.name, "blockquote")
    ensures BlockOf(e, level).paras == [PPara(level, None, true, InlineOf(e).runs)]
  {
  }

  /** Any other element is one paragraph at level 0, whatever the bullet level, sized by its text. */
  lemma OtherParagraph(e: Node, level: int)
    requires e.Elem? && BlockKindOf(e) == Other
    ensures BlockOf(e, level).paras == [PPara(0, Some(AdjustFontSize(GetText(e), MaxCharsPerSlide)), false, InlineOf(e).runs)]
    ensures BlockOf(e, level) == BlockOf(e, 0)
  {
  }

  /** The paragraphs at exactly level `level`, in order. */
  function AtLevel(ps: seq<PPara>, level: int): seq<PPara> {
    if ps == [] then [] else (if ps[0].level == level then [ps[0]] else []) + AtLevel(ps[1..], level)
  }

  lemma {:induction false} AtLevelAppend(a: seq<PPara>, b: seq<PPara>, level: int)
    ensures AtLevel(a + b, level) == AtLevel(a, level) + AtLevel(b, level)
  {
    if a == [] {
      assert a + b == b;
    } else {
      assert (a + b)[0] == a[0];
      assert (a + b)[1..] == a[1..] + b;
      AtLevelAppend(a[1..], b, level);
    }
  }

  lemma {:induction false} AtLevelDeeper(ps: seq<PPara>, level: int)
    requires forall k :: 0 <= k < |ps| ==> ps[k].level > level
    ensures AtLevel(ps, level) == []
  {
    if ps != [] {
      AtLevelDeeper(ps[1..], level);
    }
  }

  /** The paragraph each item of a list is meant to get, in order. */
  function ItemParas(lis: seq<Node>, size: int, level: int): (r: seq<PPara>)
    requires forall k :: 0 <= k < |lis| ==> lis[k].Elem?
    ensures |r| == |lis|
  {
    if lis == [] then []
    else [PPara(level, Some(size), false, InlineOf(lis[0]).runs)] + ItemParas(lis[1..], size, level)
  }

  /** Every paragraph has level at least `level`. */
  predicate NotShallower(ps: seq<PPara>, level: int) {
    forall k :: 0 <= k < |ps| ==> ps[k].level >= level
  }

  lemma NotShallowerAppend(a: seq<PPara>, b: seq<PPara>, level: int)
    requires NotShallower(a, level) && NotShallower(b, level)
    ensures NotShallower(a + b, level)
  {
  }

  /** A direct `ul` or `ol` child of an item takes the list branch. */
  lemma SubListIsList(sub: Node)
    requires sub.Elem? && sub.name in {"ul", "ol"}
    ensures BlockKindOf(sub) == List
  {
  }

  /**
   * A list at bullet level `level` writes no paragraph shallower than
   * `level`, and its paragraphs at exactly `level` are one per direct `li`,
   * in order, each holding that item's runs at the size of the whole list.
   */
  lemma {:induction false} ListParagraphs(e: Node, level: int)
    requires e.Elem? && BlockKindOf(e) == List
    ensures NotShallower(BlockOf(e, level).paras, level)
    ensures AtLevel(BlockOf(e, level).paras, level) == ItemParas(Items(e), ListSize(e), level)
    ensures |AtLevel(BlockOf(e, level).paras, level)| == |Items(e)|
    decreases e, 2, 0
  {
    ItemsFromParagraphs(e, 0, level);
    assert Items(e)[0..] == Items(e);
  }

  lemma {:induction false} ItemsFromParagraphs(e: Node, i: nat, level: int)
    requires e.Elem? && i <= |Items(e)|
    ensures NotShallower(ItemsFrom(e, i, level).paras, level)
    ensures AtLevel(ItemsFrom(e, i, level).paras, level) == ItemParas(Items(e)[i..], ListSize(e), level)
    decreases e, 1, |Items(e)| - i
  {
    if i < |Items(e)| {
      var li := Items(e)[i];
      ItemsFromStep(e, i, level);
      ItemParagraphs(li, ListSize(e), level);
      ItemsFromParagraphs(e, i + 1, level);
      var a := ItemOf(li, ListSize(e), level).paras;
      var b := ItemsFrom(e, i + 1, level).paras;
      NotShallowerAppend(a, b, level);
      AtLevelAppend(a, b, level);
      assert Items(e)[i..][1..] == Items(e)[i + 1..];
    }
  }

  lemma {:induction false} ItemParagraphs(li: Node, size: int, level: int)
    requires li.Elem?
    ensures NotShallower(ItemOf(li, size, level).paras, level)
    ensures AtLevel(ItemOf(li, size, level).paras, level) == [PPara(level, Some(size), false, InlineOf(li).runs)]
    decreases li, 2, 0
  {
    var head := Walked(li, level, Some(size), false).paras;
    var subs := SubsFrom(li, 0, level + 1).paras;
    SubsFromParagraphs(li, 0, level + 1);
    AtLevelDeeper(subs, level);
    AtLevelAppend(head, subs, level);
    NotShallowerAppend(head, subs, level);
  }

  lemma {:induction false} SubsFromParagraphs(li: Node, j: nat, level: int)
    requires li.Elem? && j <= |SubLists(li)|
    ensures NotShallower(SubsFrom(li, j, level).paras, level)
    decreases li, 1, |SubLists(li)| - j
  {
    if j < |SubLists(li)| {
      var sub := SubLists(li)[j];
      SubsFromStep(li, j, level);
      SubListIsList(sub);
      ListParagraphs(sub, level);
      SubsFromParagraphs(li, j + 1, level);
      NotShallowerAppend(BlockOf(sub, level).paras, SubsFrom(li, j + 1, level).paras, level);
    }
  }

  /**
   * The paragraph of an item holds the plain text leaves of the whole item,
   * its sub-lists included, so the text of a nested list is written both in
   * its parent item's paragraph and in its own paragraphs one level deeper.
   */
  lemma ItemRepeatsSubLists(li: Node, size: int, level: int)
    requires li.Elem?
    ensures ItemOf(li, size, level).paras != []
    ensures PlainTexts(ItemOf(li, size, level).paras[0].runs) == PlainLeavesIn(li.children)
  {
    InlinePlainRuns(li);
  }

  /**
   * `<li>s<ul><li>t</li></ul></li>`: the item's paragraph reads `s`, `t`
   * and the nested item's paragraph, one level deeper, reads `t` again.
   */
  lemma NestedItemTextTwice(li: Node, sub: Node, inner: Node, s: string, t: string, size: int, level: int)
    requires !IsBlank(s) && !IsBlank(t)
    requires inner.Elem? && inner.name == "li" && inner.children == [Text(t)]
    requires sub.Elem? && sub.name == "ul" && sub.children == [inner]
    requires li.Elem? && li.children == [Text(s), sub]
    ensures ItemOf(li, size, level).paras ==
      [PPara(level, Some(size), false, [Plain(s), Plain(t)]),
       PPara(level + 1, Some(AdjustFontSize(t, MaxCharsPerSlide)), false, [Plain(t)])]
  {
    var deeper := PPara(level + 1, Some(AdjustFontSize(t, MaxCharsPerSlide)), false, [Plain(t)]);
    OnlyChild(inner, Text(t));
    UlIsNested(sub);
    OnlyChild(sub, inner);
    TwoChildren(li, Text(s), sub);
    assert InlineOf(li).runs == [Plain(s), Plain(t)];
    OneSubList(li, sub);
    OneItemList(sub, inner, t, level + 1);
    assert SubsFrom(li, 0, level + 1).paras == [deeper] by {
      SubsFromStep(li, 0, level + 1);
    }
  }

  /** A `ul` child of an item is walked through, not written as a run. */
  lemma UlIsNested(sub: Node)
    requires sub.Elem? && sub.name == "ul"
    ensures KindOf(sub) == Nested
  {
    assert LowerChar('u') == 'u';
    assert !LowerIs(sub.name, "em") by { assert sub.name[0] == 'u'; }
  }

  /** An item whose children are some text and then one list has that list as its only sub-list. */
  lemma OneSubList(li: Node, sub: Node)
    requires li.Elem? && |li.children| == 2 && !li.children[0].Elem? && li.children[1] == sub
    requires sub.Elem? && sub.name == "ul"
    ensures SubLists(li) == [sub]
  {
    assert li.children[1..] == [sub];
    assert Select(li.children[1..], {"ul", "ol"}) == [sub];
  }

  /** `<ul><li>t</li></ul>` writes the one paragraph `t`, sized by `t`. */
  lemma OneItemList(sub: Node, inner: Node, t: string, level: int)
    requires !IsBlank(t)
    requires inner.Elem? && inner.name == "li" && inner.children == [Text(t)]
    requires sub.Elem? && sub.name == "ul" && sub.children == [inner]
    ensures BlockOf(sub, level).paras == [PPara(level, Some(AdjustFontSize(t, MaxCharsPerSlide)), false, [Plain(t)])]
  {
    SubListIsList(sub);
    OnlyChild(inner, Text(t));
    assert Items(sub) == [inner];
    assert inner.children[1..] == [] && sub.children[1..] == [];
    assert TextOf(inner.children[1..]) == "" && TextOf(sub.children[1..]) == "";
    assert TextOf(inner.children) == t + "";
    assert GetText(inner) == t;
    assert TextOf(sub.children) == t + "";
    assert GetText(sub) == t;
    assert SubLists(inner) == [];
    assert ItemsFrom(sub, 1, level) == NoEffect;
    assert ItemsFrom(sub, 0, level).paras == ItemOf(inner, ListSize(sub), level).paras;
  }

  /** An element with two children walks as the first and then the second. */
  lemma TwoChildren(e: Node, a: Node, b: Node)
    requires e.Elem? && e.children == [a, b]
    ensures InlineOf(e) == Join(InlineChild(a), InlineChild(b))
  {
    assert InlineFrom(e, 2) == NoneEmitted;
    assert InlineFrom(e, 1) == Join(InlineChild(b), NoneEmitted);
  }

  /** An element with one child walks as that child. */
  lemma OnlyChild(e: Node, c: Node)
    requires e.Elem? && e.children == [c]
    ensures InlineOf(e) == InlineChild(c)
  {
    assert InlineFrom(e, 1) == NoneEmitted;
  }
}
