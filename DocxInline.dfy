/**
 * The inline walk of the word-processor converter (md2docx.py):
 * `process_inline_children` (md2docx.py:369-424), its single-node twin
 * `direct_process_inline_children` (md2docx.py:318-367) and the heading
 * branch of `process_element` (md2docx.py:428-433).
 *
 * The walk appends runs and hyperlinks to a live paragraph and headings,
 * tables and pictures to a live document while it recurses, threading a
 * copy of the formatting flags into each emphasis tag. `Walk`, `Kids`,
 * `Child` and `Element` state what one call appends, or that it raises;
 * the methods do the appending and are proved to append exactly that.
 */
module DocxInline {
  import opened Wrappers
  import opened Strings
  import opened Html
  import opened DocxHelpers
  import opened DocxDoc
  import opened DocxTable
  import opened Grids

  /**
   * The branch an element child takes, tried in the source's order: `strong`
   * and `b`, `em` and `i`, `u`, `a`, `img`, `code`, `table`, then any other
   * tag by `is_block`. `code` sets underline exactly as `u` does, so the two
   * share a branch here.
   */
  datatype Role =
    | SetBold | SetItalic | SetUnderline
    | Hyperlink | Image | NestedTable
    | PassThrough | BlockElement

  function RoleOf(c: Node): Role
    requires c.Elem?
  {
    if c.name == "strong" || c.name == "b" then SetBold
    else if c.name == "em" || c.name == "i" then SetItalic
    else if c.name == "u" || c.name == "code" then SetUnderline
    else if c.name == "a" then Hyperlink
    else if c.name == "img" then Image
    else if c.name == "table" then NestedTable
    else if !IsBlock(c) then PassThrough
    else BlockElement
  }

  /**
   * What a call does: it raises, or it appends `items` to the paragraph it
   * was given and `blocks` to the document.
   */
  datatype Outcome = Crash | Out(items: seq<Inline>, blocks: seq<Block>)

  const Nothing: Outcome := Out([], [])

  /** One call after another: the first failure ends the conversion. */
  function Then(a: Outcome, b: Outcome): Outcome {
    if a.Crash? || b.Crash? then Crash else Out(a.items + b.items, a.blocks + b.blocks)
  }

  lemma ThenAssociative(a: Outcome, b: Outcome, c: Outcome)
    ensures Then(Then(a, b), c) == Then(a, Then(b, c))
  {
  }

  /** `_doc_image_process`: a picture for a non-empty `src`, nothing otherwise. */
  function ImageBlocks(img: Node): seq<Block> {
    var src := AttrOr(img, "src", "");
    if src != "" then [Picture(src)] else []
  }

  /** `process_inline_children(n, formatting=f)`. */
  function Walk(n: Node, f: Fmt): Outcome
    requires n.Elem?
    decreases n, 1, 0
  {
    Kids(n, 0, f, false)
  }

  /**
   * The loop over `n`'s children from index `i` on; `bound` says whether
   * the loop's `run` variable already holds a run of this call.
   */
  function Kids(n: Node, i: nat, f: Fmt, bound: bool): Outcome
    requires n.Elem? && i <= |n.children|
    decreases n, 0, |n.children| - i
  {
    if i == |n.children| then Nothing
    else
      var c := n.children[i];
      Then(Child(c, f, bound), Kids(n, i + 1, f, bound || (c.Text? && !IsBlank(c.s))))
  }

  /**
   * One child. A blank text leaf adds nothing, but the flag updates that
   * follow it still touch `run`: with a flag set and no run bound yet in
   * this call, that raises (an unbound local); with a run bound, they set
   * flags the run already has.
   */
  function Child(c: Node, f: Fmt, bound: bool): Outcome
    decreases c, 3, 0
  {
    match c
    case Text(s) =>
      if !IsBlank(s) then Out([Run(s, f)], [])
      else if AnyFlag(f) && !bound then Crash
      else Nothing
    case Elem(_, _, _) =>
      match RoleOf(c)
      case SetBold => Walk(c, f.(bold := true))
      case SetItalic => Walk(c, f.(italic := true))
      case SetUnderline => Walk(c, f.(underline := true))
      case Hyperlink => Out([Link(AttrOr(c, "href", ""), StrippedText(c), GetImgSrc(c))], [])
      case Image => Out([], ImageBlocks(c))
      case NestedTable => if Rows(c) != [] then Out([], [EmptyPara, Table(TableGrid(c))]) else Crash
      case PassThrough => Walk(c, f)
      case BlockElement => Element(c)
  }

  /**
   * `process_element` for a block element met inside inline content: a
   * heading is added first and then filled by an unformatted walk of its
   * children; every other block goes to the branches this model does not
   * follow.
   */
  function Element(e: Node): Outcome
    requires e.Elem?
    decreases e, 2, 0
  {
    if IsHeadingTag(e.name) then
      var o := Walk(e, Unformatted);
      if o.Crash? then Crash
      else Out([], [Heading(HeadingLevel(e.name), o.items, Attr(e, "align") == Some("center"))] + o.blocks)
    else Out([], [Other(e)])
  }

  /**
   * `direct_process_inline_children(n, formatting=f)`: the body of the loop
   * above applied to `n` itself, where no run is ever bound beforehand; its
   * table branch hands `process_table` a run instead of the document, which
   * always fails.
   */
  function Direct(n: Node, f: Fmt): Outcome {
    if n.Elem? && RoleOf(n) == NestedTable then Crash else Child(n, f, false)
  }

  /** The process_inline_children loop. */
  method ProcessInlineChildren(n: Node, f: Fmt, p: Paragraph, doc: Document) returns (ok: bool)
    requires n.Elem?
    modifies p, doc
    decreases n, 1, 0
    ensures ok == Walk(n, f).Out?
    ensures ok ==> p.items == old(p.items) + Walk(n, f).items
    ensures ok ==> doc.blocks == old(doc.blocks) + Walk(n, f).blocks
  {
    var i := 0;
    var bound := false;
    ghost var done := Nothing;
    while i < |n.children|
      invariant i <= |n.children|
      invariant done.Out?
      invariant Then(done, Kids(n, i, f, bound)) == Walk(n, f)
      invariant p.items == old(p.items) + done.items
      invariant doc.blocks == old(doc.blocks) + done.blocks
    {
      var c := n.children[i];
      ghost var step := Child(c, f, bound);
      ghost var next := bound || (c.Text? && !IsBlank(c.s));
      ghost var rest := Kids(n, i + 1, f, next);
      assert Kids(n, i, f, bound) == Then(step, rest);
      ThenAssociative(done, step, rest);
      ok := InlineChild(c, f, bound, p, doc);
      if !ok {
        return;
      }
      if c.Text? {
        StripEmpty(c.s);
        if Strip(c.s) != [] {
          bound := true;
        }
      }
      assert bound == next;
      done := Then(done, step);
      i := i + 1;
    }
    ok := true;
  }

  /** One pass of the loop body, for child `c`. */
  method InlineChild(c: Node, f: Fmt, bound: bool, p: Paragraph, doc: Document) returns (ok: bool)
    modifies p, doc
    decreases c, 3, 0
    ensures ok == Child(c, f, bound).Out?
    ensures ok ==> p.items == old(p.items) + Child(c, f, bound).items
    ensures ok ==> doc.blocks == old(doc.blocks) + Child(c, f, bound).blocks
  {
    match c
    case Text(s) =>
      StripEmpty(s);
      if Strip(s) != [] {
        p.items := p.items + [Run(s, f)];
        ok := true;
      } else {
        ok := !(AnyFlag(f) && !bound);
      }
    case Elem(_, _, _) =>
      var role := RoleOf(c);
      match role
      case SetBold =>
        ok := ProcessInlineChildren(c, f.(bold := true), p, doc);
      case SetItalic =>
        ok := ProcessInlineChildren(c, f.(italic := true), p, doc);
      case SetUnderline =>
        ok := ProcessInlineChildren(c, f.(underline := true), p, doc);
      case Hyperlink =>
        p.items := p.items + [Link(AttrOr(c, "href", ""), StrippedText(c), GetImgSrc(c))];
        ok := true;
      case Image =>
        var src := AttrOr(c, "src", "");
        if src != "" {
          doc.blocks := doc.blocks + [Picture(src)];
        }
        ok := true;
      case NestedTable =>
        doc.blocks := doc.blocks + [EmptyPara];
        ok := ProcessTable(c, doc);
      case PassThrough =>
        ok := ProcessInlineChildren(c, f, p, doc);
      case BlockElement =>
        ok := ProcessElement(c, doc);
  }

  /**
   * The heading branch of `process_element`: the heading is added to the
   * document before its content is walked, so blocks met inside it follow
   * it; its paragraph is filled in place.
   */
  method ProcessElement(e: Node, doc: Document) returns (ok: bool)
    requires e.Elem?
    modifies doc
    decreases e, 2, 0
    ensures ok == Element(e).Out?
    ensures ok ==> doc.blocks == old(doc.blocks) + Element(e).blocks
  {
    if IsHeadingTag(e.name) {
      var level := HeadingLevel(e.name);
      var at := |doc.blocks|;
      doc.blocks := doc.blocks + [Heading(level, [], false)];
      var hp := new Paragraph();
      ok := ProcessInlineChildren(e, Unformatted, hp, doc);
      if ok {
        var centered := Attr(e, "align") == Some("center");
        ghost var added := Walk(e, Unformatted).blocks;
        assert hp.items == Walk(e, Unformatted).items;
        assert doc.blocks == old(doc.blocks) + [Heading(level, [], false)] + added;
        doc.blocks := doc.blocks[at := Heading(level, hp.items, centered)];
        assert doc.blocks == old(doc.blocks) + [Heading(level, hp.items, centered)] + added;
      }
    } else {
      doc.blocks := doc.blocks + [Other(e)];
      ok := true;
    }
  }

  /** `direct_process_inline_children`. */
  method DirectProcessInlineChildren(n: Node, f: Fmt, p: Paragraph, doc: Document) returns (ok: bool)
    modifies p, doc
    ensures ok == Direct(n, f).Out?
    ensures ok ==> p.items == old(p.items) + Direct(n, f).items
    ensures ok ==> doc.blocks == old(doc.blocks) + Direct(n, f).blocks
  {
    if n.Elem? && RoleOf(n) == NestedTable {
      doc.blocks := doc.blocks + [EmptyPara];
      ok := false;
    } else {
      ok := InlineChild(n, f, false, p, doc);
    }
  }

  /** The runs among a paragraph's items, in order. */
  function RunsOnly(items: seq<Inline>): (r: seq<Inline>)
    ensures forall k :: 0 <= k < |r| ==> r[k].Run?
  {
    if items == [] then []
    else (if items[0].Run? then [items[0]] else []) + RunsOnly(items[1..])
  }

  /** A single item is kept exactly when it is a run. */
  lemma RunsOnlyOne(x: Inline)
    ensures RunsOnly([x]) == if x.Run? then [x] else []
  {
    assert [x][1..] == [];
  }

  lemma {:induction false} RunsOnlyAppend(a: seq<Inline>, b: seq<Inline>)
    ensures RunsOnly(a + b) == RunsOnly(a) + RunsOnly(b)
  {
    if a == [] {
      assert a + b == b;
    } else {
      assert (a + b)[0] == a[0];
      assert (a + b)[1..] == a[1..] + b;
      RunsOnlyAppend(a[1..], b);
    }
  }

  /**
   * The runs the walk is meant to write, stated without the paragraph, the
   * document or the failure paths: every non-blank text leaf reached through
   * inline tags, in document order, with the flags of the emphasis tags
   * above it added to `f`. Links, images, tables and blocks write no run
   * into the paragraph.
   */
  function RunsOf(c: Node, f: Fmt): (r: seq<Inline>)
    decreases c
    ensures forall k :: 0 <= k < |r| ==> r[k].Run?
  {
    match c
    case Text(s) => if IsBlank(s) then [] else [Run(s, f)]
    case Elem(_, _, ch) =>
      match RoleOf(c)
      case SetBold => RunsIn(ch, f.(bold := true))
      case SetItalic => RunsIn(ch, f.(italic := true))
      case SetUnderline => RunsIn(ch, f.(underline := true))
      case PassThrough => RunsIn(ch, f)
      case _ => []
  }

  function RunsIn(ns: seq<Node>, f: Fmt): (r: seq<Inline>)
    decreases ns
    ensures forall k :: 0 <= k < |r| ==> r[k].Run?
  {
    if ns == [] then [] else RunsOf(ns[0], f) + RunsIn(ns[1..], f)
  }

  /** A walk that completes writes exactly the intended runs, in order. */
  lemma {:induction false} WalkRuns(n: Node, f: Fmt)
    requires n.Elem? && Walk(n, f).Out?
    ensures RunsOnly(Walk(n, f).items) == RunsIn(n.children, f)
    decreases n, 1, 0
  {
    KidsRuns(n, 0, f, false);
    assert n.children[0..] == n.children;
  }

  lemma {:induction false} KidsRuns(n: Node, i: nat, f: Fmt, bound: bool)
    requires n.Elem? && i <= |n.children| && Kids(n, i, f, bound).Out?
    ensures RunsOnly(Kids(n, i, f, bound).items) == RunsIn(n.children[i..], f)
    decreases n, 0, |n.children| - i
  {
    if i < |n.children| {
      var c := n.children[i];
      var next := bound || (c.Text? && !IsBlank(c.s));
      ChildRuns(c, f, bound);
      KidsRuns(n, i + 1, f, next);
      RunsOnlyAppend(Child(c, f, bound).items, Kids(n, i + 1, f, next).items);
      assert n.children[i..][0] == c;
      assert n.children[i..][1..] == n.children[i + 1..];
    }
  }

  lemma {:induction false} ChildRuns(c: Node, f: Fmt, bound: bool)
    requires Child(c, f, bound).Out?
    ensures RunsOnly(Child(c, f, bound).items) == RunsOf(c, f)
    decreases c, 3, 0
  {
    if c.Elem? {
      match RoleOf(c)
      case SetBold => WalkRuns(c, f.(bold := true));
      case SetItalic => WalkRuns(c, f.(italic := true));
      case SetUnderline => WalkRuns(c, f.(underline := true));
      case PassThrough => WalkRuns(c, f);
      case Hyperlink =>
      case Image =>
      case NestedTable =>
      case BlockElement =>
    }
  }

  /** One of the three formatting flags, and the tags that set it. */
  datatype Flag = Bold | Italic | Underline

  function Get(f: Fmt, fl: Flag): bool {
    match fl
    case Bold => f.bold
    case Italic => f.italic
    case Underline => f.underline
  }

  function TagsOf(fl: Flag): set<string> {
    match fl
    case Bold => {"strong", "b"}
    case Italic => {"em", "i"}
    case Underline => {"u", "code"}
  }

  /** Every intended run carries every flag the walk started with, and non-blank text. */
  lemma {:induction false} RunsKeepFlags(ns: seq<Node>, f: Fmt, fl: Flag)
    requires Get(f, fl)
    ensures forall k :: 0 <= k < |RunsIn(ns, f)| ==> Get(RunsIn(ns, f)[k].fmt, fl) && !IsBlank(RunsIn(ns, f)[k].text)
    decreases ns
  {
    if ns != [] {
      NodeRunsKeepFlags(ns[0], f, fl);
      RunsKeepFlags(ns[1..], f, fl);
    }
  }

  lemma {:induction false} NodeRunsKeepFlags(c: Node, f: Fmt, fl: Flag)
    requires Get(f, fl)
    ensures forall k :: 0 <= k < |RunsOf(c, f)| ==> Get(RunsOf(c, f)[k].fmt, fl) && !IsBlank(RunsOf(c, f)[k].text)
    decreases c
  {
    if c.Elem? {
      match RoleOf(c)
      case SetBold => RunsKeepFlags(c.children, f.(bold := true), fl);
      case SetItalic => RunsKeepFlags(c.children, f.(italic := true), fl);
      case SetUnderline => RunsKeepFlags(c.children, f.(underline := true), fl);
      case PassThrough => RunsKeepFlags(c.children, f, fl);
      case _ =>
    }
  }

  /**
   * A flag the walk did not start with appears on no run unless some
   * emphasis tag that sets it lies above the text: the caller's flags are
   * copied, never changed, so a sibling's tag does not leak.
   */
  lemma {:induction false} NoFlagWithoutTag(ns: seq<Node>, f: Fmt, fl: Flag)
    requires forall k, t :: 0 <= k < |ns| && t in TagsOf(fl) ==> !InSubtree(ns[k], t)
    ensures forall k :: 0 <= k < |RunsIn(ns, f)| ==> Get(RunsIn(ns, f)[k].fmt, fl) == Get(f, fl)
    decreases ns
  {
    if ns != [] {
      NodeNoFlagWithoutTag(ns[0], f, fl);
      assert forall k :: 0 <= k < |ns[1..]| ==> ns[1..][k] == ns[k + 1];
      NoFlagWithoutTag(ns[1..], f, fl);
    }
  }

  lemma {:induction false} NodeNoFlagWithoutTag(c: Node, f: Fmt, fl: Flag)
    requires forall t :: t in TagsOf(fl) ==> !InSubtree(c, t)
    ensures forall k :: 0 <= k < |RunsOf(c, f)| ==> Get(RunsOf(c, f)[k].fmt, fl) == Get(f, fl)
    decreases c
  {
    if c.Elem? {
      forall k, t | 0 <= k < |c.children| && t in TagsOf(fl)
        ensures !InSubtree(c.children[k], t)
      {
        assert !HasDescendant(c, t);
      }
      assert InSubtree(c, c.name);
      assert c.name !in TagsOf(fl);
      match RoleOf(c)
      case SetBold =>
        NoFlagWithoutTag(c.children, f.(bold := true), fl);
      case SetItalic =>
        NoFlagWithoutTag(c.children, f.(italic := true), fl);
      case SetUnderline =>
        NoFlagWithoutTag(c.children, f.(underline := true), fl);
      case PassThrough => NoFlagWithoutTag(c.children, f, fl);
      case _ =>
    }
  }

  /**
   * A blank text leaf first among the children of a walk with any flag set
   * raises: no run is bound yet when the flag updates after it run.
   */
  lemma BlankLeadCrashes(n: Node, f: Fmt)
    requires n.Elem? && n.children != [] && n.children[0].Text? && IsBlank(n.children[0].s)
    requires AnyFlag(f)
    ensures Walk(n, f) == Crash
  {
    assert Kids(n, 0, f, false) == Then(Child(n.children[0], f, false), Kids(n, 1, f, false));
  }

  /** So an emphasis tag whose content starts with blank text makes the conversion fail. */
  lemma EmphasisOverBlankCrashes(c: Node, f: Fmt, bound: bool)
    requires c.Elem? && RoleOf(c) in {SetBold, SetItalic, SetUnderline}
    requires c.children != [] && c.children[0].Text? && IsBlank(c.children[0].s)
    ensures Child(c, f, bound) == Crash
  {
    match RoleOf(c)
    case SetBold => BlankLeadCrashes(c, f.(bold := true));
    case SetItalic => BlankLeadCrashes(c, f.(italic := true));
    case SetUnderline => BlankLeadCrashes(c, f.(underline := true));
  }

  /**
   * Once a run is bound in the call, or when no flag is set, a blank text
   * leaf is skipped without effect.
   */
  lemma BlankLeafSkipped(n: Node, i: nat, f: Fmt, bound: bool)
    requires n.Elem? && i < |n.children| && n.children[i].Text? && IsBlank(n.children[i].s)
    requires bound || !AnyFlag(f)
    ensures Kids(n, i, f, bound) == Kids(n, i + 1, f, bound)
  {
    assert Child(n.children[i], f, bound) == Nothing;
  }

  /** A nested table fails exactly when it has no row (the `max` of nothing). */
  lemma NestedTableFails(c: Node, f: Fmt, bound: bool)
    requires c.Elem? && c.name == "table"
    ensures Child(c, f, bound).Crash? <==> Rows(c) == []
    ensures Child(c, f, bound).Out? ==> Child(c, f, bound).blocks == [EmptyPara, Table(TableGrid(c))]
  {
  }

  /** The single-node entry point raises on a blank text leaf exactly when a flag is set. */
  lemma DirectTextLeaf(s: string, f: Fmt)
    ensures Direct(Text(s), f).Crash? <==> IsBlank(s) && AnyFlag(f)
    ensures Direct(Text(s), f).Out? ==> Direct(Text(s), f).blocks == []
  {
  }

  /**
   * A heading comes first, at its level from 1 to 6, centred exactly when
   * `align="center"`, and its paragraph holds the intended runs of an
   * unformatted walk.
   */
  lemma HeadingContent(e: Node)
    requires e.Elem? && IsHeadingTag(e.name) && Element(e).Out?
    ensures Element(e).blocks != [] && Element(e).blocks[0].Heading?
    ensures 1 <= Element(e).blocks[0].level <= 6
    ensures Element(e).blocks[0].centered <==> Attr(e, "align") == Some("center")
    ensures RunsOnly(Element(e).blocks[0].items) == RunsIn(e.children, Unformatted)
    ensures Element(e).items == []
  {
    WalkRuns(e, Unformatted);
  }
}
