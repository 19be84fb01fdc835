/**
 * Text sizing for slides (md2pptx.py): greedy word packing into chunks under
 * a character budget, the inverse-proportional font size, and the heading
 * font size formula.
 */
module PptxText {
  import opened Strings
  import opened Html

  /** `MAX_CHARS_PER_SLIDE` (md2pptx.py:20). */
  const MaxCharsPerSlide: int := 800
  const BaseFontSize: int := 36
  const MinFontSize: int := 8

  /**
   * The chunks `split_text` emits for the remaining words `ws` when the chunk
   * being built holds the words `cur` (its text is `Spaced(cur)`).
   */
  function Pack(ws: seq<string>, cur: seq<string>, maxChars: int): seq<string>
    decreases |ws|
  {
    if ws == [] then
      if cur == [] then [] else [JoinSpace(cur)]
    else if Width(cur) + |ws[0]| + 1 > maxChars then
      [JoinSpace(cur)] + Pack(ws[1..], [ws[0]], maxChars)
    else
      Pack(ws[1..], cur + [ws[0]], maxChars)
  }

  /** The value of `split_text(text, max_chars)`. */
  function Chunks(text: string, maxChars: int): seq<string> {
    Pack(Words(text), [], maxChars)
  }

  /**
   * One step of the packing: the next word either closes the current chunk
   * (emitting its joined words) or is appended to it.
   */
  lemma PackStep(ws: seq<string>, i: nat, cur: seq<string>, maxChars: int)
    requires i < |ws| && AllWords(ws) && AllWords(cur)
    ensures Width(cur) + |ws[i]| + 1 > maxChars ==>
              Pack(ws[i..], cur, maxChars) == [JoinSpace(cur)] + Pack(ws[i + 1..], [ws[i]], maxChars)
              && Spaced([ws[i]]) == ws[i] + " " && AllWords([ws[i]])
    ensures Width(cur) + |ws[i]| + 1 <= maxChars ==>
              Pack(ws[i..], cur, maxChars) == Pack(ws[i + 1..], cur + [ws[i]], maxChars)
              && Spaced(cur + [ws[i]]) == Spaced(cur) + ws[i] + " " && AllWords(cur + [ws[i]])
  {
    assert ws[i..][0] == ws[i] && ws[i..][1..] == ws[i + 1..];
    assert IsWord(ws[i]);
    SpacedAppend(cur, ws[i]);
    assert Spaced([ws[i]]) == ws[i] + " " + Spaced([]);
  }

  /** After the last word, the chunk being built is emitted unless it is empty. */
  lemma PackEnd(cur: seq<string>, maxChars: int)
    requires AllWords(cur)
    ensures Pack([], cur, maxChars) == if Spaced(cur) == "" then [] else [Strip(Spaced(cur))]
  {
    StripSpaced(cur);
  }

  /** `split_text` (md2pptx.py:22-39). */
  method SplitText(text: string, maxChars: int) returns (chunks: seq<string>)
    ensures chunks == Chunks(text, maxChars)
  {
    chunks := PackLoop(Words(text), maxChars);
  }

  /** The loop of `split_text` over the words of the text. */
  method PackLoop(words: seq<string>, maxChars: int) returns (chunks: seq<string>)
    requires AllWords(words)
    ensures chunks == Pack(words, [], maxChars)
  {
    chunks := [];
    var current := "";
    ghost var cur: seq<string> := [];
    for i := 0 to |words|
      invariant AllWords(cur)
      invariant current == Spaced(cur)
      invariant chunks + Pack(words[i..], cur, maxChars) == Pack(words, [], maxChars)
    {
      var word := words[i];
      PackStep(words, i, cur, maxChars);
      if |current| + |word| + 1 > maxChars {
        StripSpaced(cur);
        var chunk := Strip(current);
        assert chunk == JoinSpace(cur);
        ghost var rest := Pack(words[i + 1..], [word], maxChars);
        assert chunks + Pack(words[i..], cur, maxChars) == chunks + [chunk] + rest;
        chunks := chunks + [chunk];
        current := word + " ";
        cur := [word];
      } else {
        current := current + word + " ";
        cur := cur + [word];
      }
    }
    assert words[|words|..] == [];
    PackEnd(cur, maxChars);
    if current != "" {
      chunks := chunks + [Strip(current)];
    } else {
      assert chunks + [] == chunks;
    }
  }

  /** The words of a list of chunks, read in order. */
  function WordsOfChunks(cs: seq<string>): seq<string> {
    if cs == [] then [] else Words(cs[0]) + WordsOfChunks(cs[1..])
  }

  lemma WordsOfChunksCons(c: string, rest: seq<string>)
    ensures WordsOfChunks([c] + rest) == Words(c) + WordsOfChunks(rest)
  {
    assert ([c] + rest)[1..] == rest;
  }

  lemma {:induction false} PackWords(ws: seq<string>, cur: seq<string>, maxChars: int)
    requires AllWords(ws) && AllWords(cur)
    ensures WordsOfChunks(Pack(ws, cur, maxChars)) == cur + ws
    decreases |ws|
  {
    if ws == [] {
      if cur != [] {
        PackWordsLast(cur, maxChars);
      }
    } else {
      var w := ws[0];
      assert IsWord(w);
      if Width(cur) + |w| + 1 > maxChars {
        PackWords(ws[1..], [w], maxChars);
        PackWordsClose(ws, cur, maxChars);
      } else {
        PackWords(ws[1..], cur + [w], maxChars);
        PackWordsExtend(ws, cur, maxChars);
      }
    }
  }

  lemma PackWordsExtend(ws: seq<string>, cur: seq<string>, maxChars: int)
    requires ws != []
    requires Width(cur) + |ws[0]| + 1 <= maxChars
    requires WordsOfChunks(Pack(ws[1..], cur + [ws[0]], maxChars)) == cur + [ws[0]] + ws[1..]
    ensures WordsOfChunks(Pack(ws, cur, maxChars)) == cur + ws
  {
    assert Pack(ws, cur, maxChars) == Pack(ws[1..], cur + [ws[0]], maxChars);
    assert cur + [ws[0]] + ws[1..] == cur + ws;
  }

  lemma PackWordsLast(cur: seq<string>, maxChars: int)
    requires AllWords(cur) && cur != []
    ensures WordsOfChunks(Pack([], cur, maxChars)) == cur
  {
    WordsOfJoin(cur);
    WordsOfChunksCons(JoinSpace(cur), []);
  }

  lemma PackWordsClose(ws: seq<string>, cur: seq<string>, maxChars: int)
    requires AllWords(cur) && ws != []
    requires Width(cur) + |ws[0]| + 1 > maxChars
    requires WordsOfChunks(Pack(ws[1..], [ws[0]], maxChars)) == [ws[0]] + ws[1..]
    ensures WordsOfChunks(Pack(ws, cur, maxChars)) == cur + ws
  {
    var rest := Pack(ws[1..], [ws[0]], maxChars);
    assert Pack(ws, cur, maxChars) == [JoinSpace(cur)] + rest;
    WordsOfJoin(cur);
    WordsOfChunksCons(JoinSpace(cur), rest);
    assert [ws[0]] + ws[1..] == ws;
  }

  /** No word is split, dropped, reordered or invented: the chunks' words are `text.split()`. */
  lemma ChunksKeepWords(text: string, maxChars: int)
    ensures WordsOfChunks(Chunks(text, maxChars)) == Words(text)
  {
    PackWords(Words(text), [], maxChars);
  }

  /** A chunk is already stripped, and is shorter than the budget unless it is one word (or none). */
  predicate WellSized(c: string, maxChars: int) {
    Stripped(c) && (|c| < maxChars || |Words(c)| <= 1)
  }

  lemma JoinedChunkWellSized(cur: seq<string>, maxChars: int)
    requires AllWords(cur)
    requires Width(cur) <= maxChars || |cur| <= 1
    ensures WellSized(JoinSpace(cur), maxChars)
  {
    JoinSpaceStripped(cur);
    WordsOfJoin(cur);
    if cur != [] {
      JoinSpaceLength(cur);
    }
  }

  predicate AllWellSized(cs: seq<string>, maxChars: int) {
    forall k :: 0 <= k < |cs| ==> WellSized(cs[k], maxChars)
  }

  lemma AllWellSizedCons(c: string, rest: seq<string>, maxChars: int)
    requires WellSized(c, maxChars) && AllWellSized(rest, maxChars)
    ensures AllWellSized([c] + rest, maxChars)
  {
    assert forall k :: 1 <= k < |[c] + rest| ==> ([c] + rest)[k] == rest[k - 1];
  }

  lemma {:induction false} PackWellSized(ws: seq<string>, cur: seq<string>, maxChars: int)
    requires AllWords(ws) && AllWords(cur)
    requires Width(cur) <= maxChars || |cur| <= 1
    ensures AllWellSized(Pack(ws, cur, maxChars), maxChars)
    decreases |ws|
  {
    if ws == [] {
      if cur != [] {
        JoinedChunkWellSized(cur, maxChars);
        AllWellSizedCons(JoinSpace(cur), [], maxChars);
        assert Pack(ws, cur, maxChars) == [JoinSpace(cur)] + [];
      }
    } else {
      PackStep(ws, 0, cur, maxChars);
      assert ws[0..] == ws;
      if Width(cur) + |ws[0]| + 1 > maxChars {
        JoinedChunkWellSized(cur, maxChars);
        PackWellSized(ws[1..], [ws[0]], maxChars);
        AllWellSizedCons(JoinSpace(cur), Pack(ws[1..], [ws[0]], maxChars), maxChars);
      } else {
        WidthAppend(cur, ws[0]);
        PackWellSized(ws[1..], cur + [ws[0]], maxChars);
      }
    }
  }

  /** Every chunk is stripped and either shorter than `max_chars` or a single word. */
  lemma ChunksWellSized(text: string, maxChars: int)
    ensures forall k :: 0 <= k < |Chunks(text, maxChars)| ==> WellSized(Chunks(text, maxChars)[k], maxChars)
  {
    PackWellSized(Words(text), [], maxChars);
  }

  lemma {:induction false} PackFromNonEmpty(ws: seq<string>, cur: seq<string>, maxChars: int)
    requires AllWords(ws) && AllWords(cur) && cur != []
    ensures Pack(ws, cur, maxChars) != []
    ensures forall k :: 0 <= k < |Pack(ws, cur, maxChars)| ==> Pack(ws, cur, maxChars)[k] != ""
    decreases |ws|
  {
    JoinSpaceEnds(cur);
    if ws != [] {
      assert IsWord(ws[0]);
      if Width(cur) + |ws[0]| + 1 > maxChars {
        PackFromNonEmpty(ws[1..], [ws[0]], maxChars);
      } else {
        PackFromNonEmpty(ws[1..], cur + [ws[0]], maxChars);
      }
    }
  }

  /**
   * The empty-chunk quirk: the first chunk is `""` exactly when the first word
   * alone overflows the budget (`len(word) + 1 > max_chars`); no later chunk is empty.
   */
  lemma ChunksEmptyFirst(text: string, maxChars: int)
    requires Words(text) != []
    ensures Chunks(text, maxChars) != []
    ensures Chunks(text, maxChars)[0] == "" <==> |Words(text)[0]| + 1 > maxChars
    ensures forall k :: 1 <= k < |Chunks(text, maxChars)| ==> Chunks(text, maxChars)[k] != ""
  {
    PackEmptyFirst(Words(text), maxChars);
  }

  lemma PackEmptyFirst(ws: seq<string>, maxChars: int)
    requires AllWords(ws) && ws != []
    ensures Pack(ws, [], maxChars) != []
    ensures Pack(ws, [], maxChars)[0] == "" <==> |ws[0]| + 1 > maxChars
    ensures forall k :: 1 <= k < |Pack(ws, [], maxChars)| ==> Pack(ws, [], maxChars)[k] != ""
  {
    var w := ws[0];
    assert IsWord(w);
    var rest := Pack(ws[1..], [w], maxChars);
    PackFromNonEmpty(ws[1..], [w], maxChars);
    if |w| + 1 > maxChars {
      assert Pack(ws, [], maxChars) == [""] + rest;
    } else {
      assert [] + [w] == [w];
      assert Pack(ws, [], maxChars) == rest;
    }
  }

  /** Whitespace-only (or empty) text yields no chunk at all. */
  lemma ChunksOfBlank(text: string, maxChars: int)
    requires IsBlank(text)
    ensures Chunks(text, maxChars) == []
  {
    BlankHasNoWords(text);
  }

  /** `adjust_font_size` (md2pptx.py:41-50), with the float quotient taken as an integer floor. */
  function AdjustFontSize(text: string, maxChars: nat): (size: int)
    ensures MinFontSize <= size <= BaseFontSize
    ensures |text| == 0 ==> size == MinFontSize
  {
    if |text| == 0 then MinFontSize
    else
      var adjusted := BaseFontSize * maxChars / |text|;
      Max(MinFontSize, Min(adjusted, BaseFontSize))
  }

  function Min(a: int, b: int): int { if a <= b then a else b }
  function Max(a: int, b: int): int { if a >= b then a else b }

  /** Text that fits the budget gets the full base size. */
  lemma FittingTextGetsBaseSize(text: string, maxChars: nat)
    requires 0 < |text| <= maxChars
    ensures AdjustFontSize(text, maxChars) == BaseFontSize
  {
    var n := BaseFontSize * maxChars;
    DivLowerBound(n, |text|, BaseFontSize);
  }

  lemma MulCancel(a: int, b: int, d: int)
    requires d > 0 && a * d < b * d
    ensures a < b
  {
    assert (b - a) * d > 0;
  }

  lemma DivLowerBound(n: nat, d: int, q: nat)
    requires d > 0 && q * d <= n
    ensures n / d >= q
  {
    var r := n / d;
    assert n == r * d + n % d;
    assert (r + 1) * d == r * d + d;
    MulCancel(q, r + 1, d);
  }

  lemma DivAntitone(n: nat, a: int, b: int)
    requires 0 < a <= b
    ensures n / b <= n / a
  {
    var q := n / b;
    assert q * b <= n;
    assert q * a <= q * b by {
      assert q >= 0;
    }
    DivLowerBound(n, a, q);
  }

  /** Longer text never gets a larger font. */
  lemma FontSizeNonIncreasing(shorter: string, longer: string, maxChars: nat)
    requires 0 < |shorter| <= |longer|
    ensures AdjustFontSize(longer, maxChars) <= AdjustFontSize(shorter, maxChars)
  {
    DivAntitone(BaseFontSize * maxChars, |shorter|, |longer|);
  }

  /** `max(40 - (level - 1) * 2, 20)` (md2pptx.py:151-157). */
  function HeadingFontSize(tag: string): (size: int)
    requires IsHeadingTag(tag)
  {
    Max(40 - (HeadingLevel(tag) - 1) * 2, 20)
  }

  /** h1 to h6 get 40, 38, ..., 30 points: deeper headings are strictly smaller, and the floor of 20 is never reached. */
  lemma HeadingSizes(a: string, b: string)
    requires IsHeadingTag(a) && IsHeadingTag(b)
    ensures 30 <= HeadingFontSize(a) <= 40
    ensures HeadingFontSize(a) == 42 - 2 * HeadingLevel(a)
    ensures HeadingLevel(a) < HeadingLevel(b) ==> HeadingFontSize(b) < HeadingFontSize(a)
  {
  }
}
