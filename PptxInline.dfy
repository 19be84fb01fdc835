/**
 * `process_inline_element` (md2pptx.py:185-250) and the slide that
 * `process_img_element` (md2pptx.py:252-294) adds for an inline image.
 *
 * Unlike the word-processor walk, an emphasis child first gets one run with
 * its whole text and is then walked again, so its text is written twice;
 * links and code get one run with their whole text and are not entered.
 */
module PptxInline {
  import opened Wrappers
  import opened Strings
  import opened Html
  import opened PptxDeck

  /** The branch an element child takes, by its lower-cased tag name. */
  datatype Kind = Anchor | Strong | Emphasis | Code | Img | Nested | Unnamed

  function KindOf(c: Node): Kind
    requires c.Elem?
  {
    var tag := c.name;
    if tag == "" then Unnamed
    else if LowerIs(tag, "a") then Anchor
    else if LowerIs(tag, "strong") || LowerIs(tag, "b") then Strong
    else if LowerIs(tag, "em") || LowerIs(tag, "i") then Emphasis
    else if LowerIs(tag, "code") then Code
    else if LowerIs(tag, "img") then Img
    else Nested
  }

  /** The branch taken depends only on the lower-cased tag name. */
  lemma KindIgnoresCase(c: Node, d: Node)
    requires c.Elem? && d.Elem? && Lower(c.name) == Lower(d.name)
    ensures KindOf(c) == KindOf(d)
  {
    forall lit: string
      ensures LowerIs(c.name, lit) <==> LowerIs(d.name, lit)
    {
      LowerIsLower(c.name, lit);
      LowerIsLower(d.name, lit);
    }
  }

  /** The text run put in place of an inline image. */
  function Placeholder(alt: string): string {
    if alt != "" then "[图片: " + alt + "]" else "[图片]"
  }

  /** The alternative text read back from a placeholder. */
  function AltOf(placeholder: string): string {
    if |placeholder| >= 6 then placeholder[5..|placeholder| - 1] else ""
  }

  /** The alternative text is recoverable from the placeholder, with or without one. */
  lemma PlaceholderRoundTrip(alt: string)
    ensures AltOf(Placeholder(alt)) == alt
    ensures Placeholder(alt)[0] == '[' && Placeholder(alt)[|Placeholder(alt)| - 1] == ']'
  {
    if alt != "" {
      var p := Placeholder(alt);
      assert p == "[图片: " + alt + "]";
      assert p[5..|p| - 1] == alt;
    }
  }

  /** `href` when it is present and non-empty. */
  function Address(a: Node): (r: Option<string>)
    ensures r.Some? <==> Attr(a, "href").Some? && Attr(a, "href").value != ""
  {
    match Attr(a, "href")
    case Some(h) => if h != "" then Some(h) else None
    case None => None
  }

  /** `process_img_element`: a slide for a non-empty `src`, captioned with `alt`. */
  function ImageSlides(img: Node): (r: seq<Slide>)
    ensures |r| <= 1
    ensures |r| == 1 <==> AttrOr(img, "src", "") != ""
    ensures forall s :: s in r ==> s.ImageSlide? && s.src == AttrOr(img, "src", "") && s.caption == AttrOr(img, "alt", "")
  {
    var src := AttrOr(img, "src", "");
    if src != "" then [ImageSlide(src, AttrOr(img, "alt", ""))] else []
  }

  /** What a walk adds: runs to the paragraph and slides to the deck. */
  datatype Emitted = Emitted(runs: seq<PRun>, slides: seq<Slide>)

  const NoneEmitted := Emitted([], [])

  function Join(a: Emitted, b: Emitted): Emitted {
    Emitted(a.runs + b.runs, a.slides + b.slides)
  }

  lemma JoinAssociative(a: Emitted, b: Emitted, c: Emitted)
    ensures Join(Join(a, b), c) == Join(a, Join(b, c))
  {
  }

  /** `process_inline_element(e, paragraph)`. */
  function InlineOf(e: Node): Emitted
    requires e.Elem?
    decreases e, 1, 0
  {
    InlineFrom(e, 0)
  }

  /** The loop over `e.contents` from index `i` on. */
  function InlineFrom(e: Node, i: nat): Emitted
    requires e.Elem? && i <= |e.children|
    decreases e, 0, |e.children| - i
  {
    if i == |e.children| then NoneEmitted
    else Join(InlineChild(e.children[i]), InlineFrom(e, i + 1))
  }

  lemma InlineFromStep(e: Node, i: nat)
    requires e.Elem? && i < |e.children|
    ensures InlineFrom(e, i) == Join(InlineChild(e.children[i]), InlineFrom(e, i + 1))
  {
  }

  /** One child of the loop. */
  function InlineChild(c: Node): Emitted
    decreases c, 2, 0
  {
    match c
    case Text(s) => if !IsBlank(s) then Emitted([Plain(s)], []) else NoneEmitted
    case Elem(_, _, _) =>
      match KindOf(c)
      case Anchor => Emitted([Linked(GetText(c), Address(c))], [])
      case Strong => Join(Emitted([Bold(GetText(c))], []), InlineOf(c))
      case Emphasis => Join(Emitted([Italic(GetText(c))], []), InlineOf(c))
      case Code => Emitted([Mono(GetText(c))], [])
      case Img => Emitted([Plain(Placeholder(AttrOr(c, "alt", "")))], ImageSlides(c))
      case Nested => InlineOf(c)
      case Unnamed => NoneEmitted
  }

  /** The `process_inline_element` loop. */
  method ProcessInlineElement(e: Node, p: Paragraph, deck: Deck)
    requires e.Elem?
    modifies p, deck
    decreases e, 1, 0
    ensures p.runs == old(p.runs) + InlineOf(e).runs
    ensures deck.slides == old(deck.slides) + InlineOf(e).slides
  {
    var i := 0;
    ghost var done := NoneEmitted;
    while i < |e.children|
      invariant i <= |e.children|
      invariant Join(done, InlineFrom(e, i)) == InlineOf(e)
      invariant p.runs == old(p.runs) + done.runs
      invariant deck.slides == old(deck.slides) + done.slides
    {
      ghost var step := InlineChild(e.children[i]);
      ghost var rest := InlineFrom(e, i + 1);
      InlineFromStep(e, i);
      JoinAssociative(done, step, rest);
      ProcessInlineChild(e.children[i], p, deck);
      done := Join(done, step);
      i := i + 1;
    }
  }

  /** One pass of the loop body, for child `c`. */
  method ProcessInlineChild(c: Node, p: Paragraph, deck: Deck)
    modifies p, deck
    decreases c, 2, 0
    ensures p.runs == old(p.runs) + InlineChild(c).runs
    ensures deck.slides == old(deck.slides) + InlineChild(c).slides
  {
    match c
    case Text(s) =>
      StripEmpty(s);
      if s != "" && Strip(s) != [] {
        p.runs := p.runs + [Plain(s)];
      }
    case Elem(_, _, _) =>
      var kind := KindOf(c);
      match kind
      case Anchor =>
        p.runs := p.runs + [Linked(GetText(c), Address(c))];
      case Strong =>
        p.runs := p.runs + [Bold(GetText(c))];
        ProcessInlineElement(c, p, deck);
      case Emphasis =>
        p.runs := p.runs + [Italic(GetText(c))];
        ProcessInlineElement(c, p, deck);
      case Code =>
        p.runs := p.runs + [Mono(GetText(c))];
      case Img =>
        p.runs := p.runs + [Plain(Placeholder(AttrOr(c, "alt", "")))];
        AddImageSlide(c, deck);
      case Nested =>
        ProcessInlineElement(c, p, deck);
      case Unnamed =>
  }

  /** `process_img_element`: no slide without a `src`. */
  method AddImageSlide(img: Node, deck: Deck)
    modifies deck
    ensures deck.slides == old(deck.slides) + ImageSlides(img)
  {
    var src := AttrOr(img, "src", "");
    if src != "" {
      deck.slides := deck.slides + [ImageSlide(src, AttrOr(img, "alt", ""))];
    }
  }

  /** The texts of the plain runs, in order. */
  function PlainTexts(runs: seq<PRun>): seq<string> {
    if runs == [] then []
    else (if runs[0].Plain? then [runs[0].text] else []) + PlainTexts(runs[1..])
  }

  lemma {:induction false} PlainTextsAppend(a: seq<PRun>, b: seq<PRun>)
    ensures PlainTexts(a + b) == PlainTexts(a) + PlainTexts(b)
  {
    if a == [] {
      assert a + b == b;
    } else {
      assert (a + b)[0] == a[0];
      assert (a + b)[1..] == a[1..] + b;
      PlainTextsAppend(a[1..], b);
    }
  }

  /**
   * The plain runs the walk is meant to write, stated on the tree alone:
   * every non-blank text leaf not inside a link or code element, and a
   * placeholder for every image, in document order; emphasis tags are
   * entered like any other tag.
   */
  function PlainLeaves(c: Node): seq<string>
    decreases c
  {
    match c
    case Text(s) => if IsBlank(s) then [] else [s]
    case Elem(_, _, ch) =>
      match KindOf(c)
      case Img => [Placeholder(AttrOr(c, "alt", ""))]
      case Strong => PlainLeavesIn(ch)
      case Emphasis => PlainLeavesIn(ch)
      case Nested => PlainLeavesIn(ch)
      case _ => []
  }

  function PlainLeavesIn(ns: seq<Node>): seq<string>
    decreases ns
  {
    if ns == [] then [] else PlainLeaves(ns[0]) + PlainLeavesIn(ns[1..])
  }

  /** The walk writes exactly the intended plain runs, in order. */
  lemma {:induction false} InlinePlainRuns(e: Node)
    requires e.Elem?
    ensures PlainTexts(InlineOf(e).runs) == PlainLeavesIn(e.children)
    decreases e, 1, 0
  {
    InlineFromPlainRuns(e, 0);
    assert e.children[0..] == e.children;
  }

  lemma {:induction false} InlineFromPlainRuns(e: Node, i: nat)
    requires e.Elem? && i <= |e.children|
    ensures PlainTexts(InlineFrom(e, i).runs) == PlainLeavesIn(e.children[i..])
    decreases e, 0, |e.children| - i
  {
    if i < |e.children| {
      var c := e.children[i];
      ChildPlainRuns(c);
      InlineFromPlainRuns(e, i + 1);
      PlainTextsAppend(InlineChild(c).runs, InlineFrom(e, i + 1).runs);
      assert e.children[i..][0] == c;
      assert e.children[i..][1..] == e.children[i + 1..];
    }
  }

  lemma {:induction false} ChildPlainRuns(c: Node)
    ensures PlainTexts(InlineChild(c).runs) == PlainLeaves(c)
    decreases c, 2, 0
  {
    if c.Elem? {
      match KindOf(c)
      case Strong =>
        InlinePlainRuns(c);
        PlainTextsAppend([Bold(GetText(c))], InlineOf(c).runs);
      case Emphasis =>
        InlinePlainRuns(c);
        PlainTextsAppend([Italic(GetText(c))], InlineOf(c).runs);
      case Nested => InlinePlainRuns(c);
      case Anchor =>
      case Code =>
      case Img =>
      case Unnamed =>
    }
  }

  /**
   * An emphasis child is written twice: first as one bold (italic) run with
   * its whole text, then its non-blank text leaves again as plain runs.
   */
  lemma EmphasisWrittenTwice(c: Node)
    requires c.Elem? && KindOf(c) in {Strong, Emphasis}
    ensures InlineChild(c).runs != []
    ensures InlineChild(c).runs[0] == (if KindOf(c) == Strong then Bold(GetText(c)) else Italic(GetText(c)))
    ensures PlainTexts(InlineChild(c).runs[1..]) == PlainLeavesIn(c.children)
  {
    InlinePlainRuns(c);
    assert InlineChild(c).runs[1..] == InlineOf(c).runs;
  }

  /** `<strong>s</strong>` with non-blank `s` gives a bold `s` and then a plain `s`. */
  lemma BoldTextTwice(c: Node, s: string)
    requires c.Elem? && KindOf(c) == Strong && c.children == [Text(s)] && !IsBlank(s)
    ensures InlineChild(c).runs == [Bold(s), Plain(s)]
  {
    assert c.children[1..] == [];
    assert TextOf(c.children[1..]) == "";
    assert TextOf(c.children) == s + "";
    assert GetText(c) == s;
    assert InlineFrom(c, 1) == NoneEmitted;
    assert InlineChild(c.children[0]) == Emitted([Plain(s)], []);
    assert InlineOf(c) == Join(Emitted([Plain(s)], []), NoneEmitted);
  }

  /** The only slides an inline walk adds are image slides with a source. */
  lemma {:induction false} InlineSlidesAreImages(e: Node)
    requires e.Elem?
    ensures forall k :: 0 <= k < |InlineOf(e).slides| ==>
              InlineOf(e).slides[k].ImageSlide? && InlineOf(e).slides[k].src != ""
    decreases e, 1, 0
  {
    InlineFromSlidesAreImages(e, 0);
  }

  lemma {:induction false} InlineFromSlidesAreImages(e: Node, i: nat)
    requires e.Elem? && i <= |e.children|
    ensures forall k :: 0 <= k < |InlineFrom(e, i).slides| ==>
              InlineFrom(e, i).slides[k].ImageSlide? && InlineFrom(e, i).slides[k].src != ""
    decreases e, 0, |e.children| - i
  {
    if i < |e.children| {
      ChildSlidesAreImages(e.children[i]);
      InlineFromSlidesAreImages(e, i + 1);
    }
  }

  lemma {:induction false} ChildSlidesAreImages(c: Node)
    ensures forall k :: 0 <= k < |InlineChild(c).slides| ==>
              InlineChild(c).slides[k].ImageSlide? && InlineChild(c).slides[k].src != ""
    decreases c, 2, 0
  {
    if c.Elem? {
      match KindOf(c)
      case Strong => InlineSlidesAreImages(c);
      case Emphasis => InlineSlidesAreImages(c);
      case Nested => InlineSlidesAreImages(c);
      case Anchor =>
      case Code =>
      case Img =>
      case Unnamed =>
    }
  }

  /** An inline image leaves one placeholder run, and a slide exactly when it has a source. */
  lemma ImageChild(c: Node)
    requires c.Elem? && KindOf(c) == Img
    ensures InlineChild(c).runs == [Plain(Placeholder(AttrOr(c, "alt", "")))]
    ensures |InlineChild(c).slides| == 1 <==> AttrOr(c, "src", "") != ""
    ensures InlineChild(c).slides == [] <==> AttrOr(c, "src", "") == ""
  {
  }
}
