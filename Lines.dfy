/**
 * Blank-line removal applied to the Markdown text before it is rendered:
 * `'\n'.join(line for line in md_text.splitlines() if line.strip())`.
 */
module BlankLines {
  import opened Strings

  /** Index of the first line break in `s`, or `|s|` when there is none. */
  function LineEnd(s: string): (k: nat)
    ensures k <= |s|
    ensures forall i :: 0 <= i < k ==> !IsLineBreak(s[i])
    ensures k < |s| ==> IsLineBreak(s[k])
  {
    if s == [] || IsLineBreak(s[0]) then 0 else 1 + LineEnd(s[1..])
  }

  predicate NoBreak(l: string) {
    forall i :: 0 <= i < |l| ==> !IsLineBreak(l[i])
  }

  /** Python's `str.splitlines()`: `\r\n` ends one line, a trailing break opens no empty line. */
  function SplitLines(s: string): (ls: seq<string>)
    ensures forall j :: 0 <= j < |ls| ==> NoBreak(ls[j])
    decreases |s|
  {
    if s == [] then []
    else
      var k := LineEnd(s);
      if k == |s| then [s]
      else
        var skip := if s[k] == '\r' && k + 1 < |s| && s[k + 1] == '\n' then 2 else 1;
        [s[..k]] + SplitLines(s[k + skip..])
  }

  /** `'\n'.join(ls)`. */
  function JoinLines(ls: seq<string>): string {
    if ls == [] then ""
    else if |ls| == 1 then ls[0]
    else ls[0] + "\n" + JoinLines(ls[1..])
  }

  /** The lines for which `line.strip()` is non-empty, in their order. */
  function NonBlankLines(ls: seq<string>): (r: seq<string>)
    ensures forall j :: 0 <= j < |r| ==> !IsBlank(r[j])
    ensures |r| <= |ls|
  {
    if ls == [] then []
    else (if IsBlank(ls[0]) then [] else [ls[0]]) + NonBlankLines(ls[1..])
  }

  /** The text handed to the Markdown renderer (md2docx.py:552, md2pptx.py:311). */
  function StripBlankLines(text: string): string {
    JoinLines(NonBlankLines(SplitLines(text)))
  }

  lemma {:induction false} NonBlankLinesKeepsNonBlank(ls: seq<string>)
    requires forall j :: 0 <= j < |ls| ==> !IsBlank(ls[j])
    ensures NonBlankLines(ls) == ls
  {
    if ls != [] {
      NonBlankLinesKeepsNonBlank(ls[1..]);
    }
  }

  lemma {:induction false} NonBlankLinesNoBreak(ls: seq<string>)
    requires forall j :: 0 <= j < |ls| ==> NoBreak(ls[j])
    ensures forall j :: 0 <= j < |NonBlankLines(ls)| ==> NoBreak(NonBlankLines(ls)[j])
  {
    if ls != [] {
      NonBlankLinesNoBreak(ls[1..]);
    }
  }

  lemma SplitOneLine(l: string)
    requires l != [] && NoBreak(l)
    ensures SplitLines(l) == [l]
  {
    assert LineEnd(l) == |l|;
  }

  lemma SplitLineThenRest(l: string, rest: string)
    requires NoBreak(l)
    ensures SplitLines(l + "\n" + rest) == [l] + SplitLines(rest)
  {
    var s := l + "\n" + rest;
    LineEndOf(l, "\n" + rest);
    assert s == l + ("\n" + rest);
    assert s[..|l|] == l;
    assert s[|l| + 1..] == rest;
  }

  lemma LineEndOf(l: string, rest: string)
    requires NoBreak(l) && rest != [] && IsLineBreak(rest[0])
    ensures LineEnd(l + rest) == |l|
    decreases |l|
  {
    if l == [] {
      assert (l + rest)[0] == rest[0];
    } else {
      assert (l + rest)[1..] == l[1..] + rest;
      LineEndOf(l[1..], rest);
    }
  }

  /** Joining non-empty, break-free lines and splitting again gives the same lines. */
  lemma {:induction false} SplitJoinLines(ls: seq<string>)
    requires forall j :: 0 <= j < |ls| ==> ls[j] != [] && NoBreak(ls[j])
    ensures SplitLines(JoinLines(ls)) == ls
  {
    if |ls| == 1 {
      SplitOneLine(ls[0]);
    } else if |ls| > 1 {
      SplitJoinLines(ls[1..]);
      SplitLineThenRest(ls[0], JoinLines(ls[1..]));
    }
  }

  /**
   * The stripped text consists of exactly the non-blank lines of the input,
   * in their original order, and has no blank line of its own.
   */
  lemma StripBlankLinesLines(text: string)
    ensures SplitLines(StripBlankLines(text)) == NonBlankLines(SplitLines(text))
    ensures forall j :: 0 <= j < |SplitLines(StripBlankLines(text))| ==>
              !IsBlank(SplitLines(StripBlankLines(text))[j])
  {
    var kept := NonBlankLines(SplitLines(text));
    NonBlankLinesNoBreak(SplitLines(text));
    SplitJoinLines(kept);
  }

  /** Removing blank lines twice is the same as removing them once. */
  lemma StripBlankLinesIdempotent(text: string)
    ensures StripBlankLines(StripBlankLines(text)) == StripBlankLines(text)
  {
    StripBlankLinesLines(text);
    NonBlankLinesKeepsNonBlank(NonBlankLines(SplitLines(text)));
  }
}
