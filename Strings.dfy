/** Small optional-value wrapper used across the model. */
module Wrappers {
  datatype Option<T> = None | Some(value: T)
}

/**
 * The string primitives the converters rely on, stated with Python's own
 * meaning: `str.isspace`, `str.strip()`, `str.split()`, `str.splitlines()`,
 * `str.rsplit(sep, 1)`, `sub in s` and (for ASCII) `str.lower()`.
 * Strings are sequences of Unicode scalar values, as Python's are of code points.
 */
module Strings {

  /**
   * Python's `str.isspace` for one character: tab to carriage return,
   * the four information separators and space, NEL, no-break space, the
   * Ogham space mark, the en quad to hair space block, the line and
   * paragraph separators, the narrow no-break, medium mathematical and
   * ideographic spaces.
   */
  predicate IsSpace(c: char) {
    ('\t' <= c <= '\r') || ('\U{001C}' <= c <= ' ')
    || c == '\U{0085}' || c == '\U{00A0}' || c == '\U{1680}'
    || ('\U{2000}' <= c <= '\U{200A}')
    || c == '\U{2028}' || c == '\U{2029}' || c == '\U{202F}' || c == '\U{205F}' || c == '\U{3000}'
  }

  /** The characters at which `str.splitlines()` ends a line. */
  predicate IsLineBreak(c: char) {
    c == '\n' || c == '\r' || c == '\U{000B}' || c == '\U{000C}'
    || c == '\U{001C}' || c == '\U{001D}' || c == '\U{001E}'
    || c == '\U{0085}' || c == '\U{2028}' || c == '\U{2029}'
  }

  lemma LineBreakIsSpace(c: char)
    requires IsLineBreak(c)
    ensures IsSpace(c)
  {
  }

  /** `not s.strip()`: the string holds only whitespace (or nothing). */
  predicate IsBlank(s: string) {
    forall i :: 0 <= i < |s| ==> IsSpace(s[i])
  }

  /** A word as `str.split()` yields it: non-empty, no whitespace. */
  predicate IsWord(w: string) {
    w != [] && forall i :: 0 <= i < |w| ==> !IsSpace(w[i])
  }

  predicate AllWords(ws: seq<string>) {
    forall k :: 0 <= k < |ws| ==> IsWord(ws[k])
  }

  /** `s.lstrip()`: the suffix left after dropping leading whitespace. */
  function TrimLeft(s: string): (r: string)
    ensures |r| <= |s|
    ensures r == [] || !IsSpace(r[0])
  {
    if s != [] && IsSpace(s[0]) then TrimLeft(s[1..]) else s
  }

  /** `s.rstrip()`: the prefix left after dropping trailing whitespace. */
  function TrimRight(s: string): (r: string)
    ensures |r| <= |s|
    ensures r == [] || !IsSpace(r[|r| - 1])
  {
    if s != [] && IsSpace(s[|s| - 1]) then TrimRight(s[..|s| - 1]) else s
  }

  /** Python's `str.strip()` with no argument. */
  function Strip(s: string): (r: string)
    ensures Stripped(r)
  {
    var t := TrimLeft(s);
    TrimRightPrefix(t);
    TrimRight(t)
  }

  /** No whitespace at either end. */
  predicate Stripped(s: string) {
    s == [] || (!IsSpace(s[0]) && !IsSpace(s[|s| - 1]))
  }

  /** What `lstrip` keeps is a suffix of its input. */
  lemma {:induction false} TrimLeftSuffix(s: string)
    ensures TrimLeft(s) == s[|s| - |TrimLeft(s)|..]
  {
    if s != [] && IsSpace(s[0]) {
      TrimLeftSuffix(s[1..]);
    }
  }

  /** What `rstrip` keeps is a prefix of its input. */
  lemma {:induction false} TrimRightPrefix(s: string)
    ensures TrimRight(s) == s[..|TrimRight(s)|]
  {
    if s != [] && IsSpace(s[|s| - 1]) {
      TrimRightPrefix(s[..|s| - 1]);
    }
  }

  /** Only whitespace is dropped from the left. */
  lemma {:induction false} TrimLeftDropsBlank(s: string)
    ensures IsBlank(s[..|s| - |TrimLeft(s)|])
  {
    if s != [] && IsSpace(s[0]) {
      TrimLeftDropsBlank(s[1..]);
      var k := |s| - |TrimLeft(s)|;
      assert s[..k] == [s[0]] + s[1..][..k - 1];
    }
  }

  /** Only whitespace is dropped from the right. */
  lemma {:induction false} TrimRightDropsBlank(s: string)
    ensures IsBlank(s[|TrimRight(s)|..])
  {
    if s != [] && IsSpace(s[|s| - 1]) {
      TrimRightDropsBlank(s[..|s| - 1]);
      var r := TrimRight(s);
      assert s[|r|..] == s[..|s| - 1][|r|..] + [s[|s| - 1]];
    }
  }

  /** `not s.strip()` holds exactly for blank strings. */
  lemma StripEmpty(s: string)
    ensures Strip(s) == [] <==> IsBlank(s)
  {
    var t := TrimLeft(s);
    TrimLeftSuffix(s);
    TrimRightPrefix(t);
    TrimLeftDropsBlank(s);
    TrimRightDropsBlank(t);
    var k := |s| - |t|;
    if Strip(s) == [] {
      assert t[0..] == t;
      assert t == [];
      assert s[..k] == s;
    } else if t != [] {
      assert t[0] == s[k];
    }
  }

  /** A string is its own strip exactly when it has no whitespace at either end. */
  lemma StrippedIsFixpoint(s: string)
    ensures Stripped(s) <==> Strip(s) == s
  {
  }

  /** The leading run of non-whitespace characters. */
  function TakeWord(s: string): (w: string)
    ensures |w| <= |s| && w == s[..|w|]
    ensures forall i :: 0 <= i < |w| ==> !IsSpace(w[i])
    ensures |w| == |s| || IsSpace(s[|w|])
    ensures s != [] && !IsSpace(s[0]) ==> w != []
  {
    if s == [] || IsSpace(s[0]) then [] else [s[0]] + TakeWord(s[1..])
  }

  /** Python's `str.split()` with no argument: the maximal whitespace-free runs, in order. */
  function Words(s: string): (ws: seq<string>)
    ensures AllWords(ws)
    decreases |s|
  {
    if s == [] then []
    else if IsSpace(s[0]) then Words(s[1..])
    else
      var w := TakeWord(s);
      [w] + Words(s[|w|..])
  }

  lemma {:induction false} BlankHasNoWords(s: string)
    requires IsBlank(s)
    ensures Words(s) == []
  {
    if s != [] {
      assert IsSpace(s[0]);
      BlankHasNoWords(s[1..]);
    }
  }

  /** `" ".join(ws)`. */
  function JoinSpace(ws: seq<string>): string {
    if ws == [] then ""
    else if |ws| == 1 then ws[0]
    else ws[0] + " " + JoinSpace(ws[1..])
  }

  lemma {:induction false} JoinSpaceLength(ws: seq<string>)
    requires ws != []
    ensures |JoinSpace(ws)| == Width(ws) - 1
  {
    if |ws| > 1 {
      JoinSpaceLength(ws[1..]);
      assert Width(ws) == |ws[0]| + 1 + Width(ws[1..]);
    }
  }

  /** Every word followed by one space: the text `current_chunk += word + " "` builds. */
  function Spaced(ws: seq<string>): (s: string)
    ensures |s| == Width(ws)
  {
    if ws == [] then "" else ws[0] + " " + Spaced(ws[1..])
  }

  /** The length of `Spaced(ws)`. */
  function Width(ws: seq<string>): nat {
    if ws == [] then 0 else |ws[0]| + 1 + Width(ws[1..])
  }

  lemma {:induction false} WidthAppend(ws: seq<string>, w: string)
    ensures Width(ws + [w]) == Width(ws) + |w| + 1
  {
    if ws != [] {
      assert (ws + [w])[1..] == ws[1..] + [w];
      WidthAppend(ws[1..], w);
    }
  }

  lemma {:induction false} SpacedAppend(ws: seq<string>, w: string)
    ensures Spaced(ws + [w]) == Spaced(ws) + w + " "
  {
    if ws != [] {
      assert (ws + [w])[1..] == ws[1..] + [w];
      SpacedAppend(ws[1..], w);
    }
  }

  lemma {:induction false} SpacedIsJoinPlusSpace(ws: seq<string>)
    requires ws != []
    ensures Spaced(ws) == JoinSpace(ws) + " "
  {
    if |ws| > 1 {
      SpacedIsJoinPlusSpace(ws[1..]);
    }
  }

  /** Splitting the joined words gives the words back. */
  lemma {:induction false} WordsOfJoin(ws: seq<string>)
    requires AllWords(ws)
    ensures Words(JoinSpace(ws)) == ws
  {
    if |ws| == 1 {
      WordsOfWord(ws[0]);
    } else if |ws| > 1 {
      assert IsWord(ws[0]);
      WordsOfJoin(ws[1..]);
      WordsCons(ws[0], JoinSpace(ws[1..]));
    }
  }

  lemma WordsOfWord(w: string)
    requires IsWord(w)
    ensures Words(w) == [w]
  {
    TakeWordOf(w, "");
    assert w + "" == w;
    assert w[|w|..] == "";
  }

  lemma WordsCons(w: string, s: string)
    requires IsWord(w)
    ensures Words(w + " " + s) == [w] + Words(s)
  {
    var x := w + " " + s;
    assert x[0] == w[0];
    assert x == w + (" " + s);
    TakeWordOf(w, " " + s);
    assert x[|w|..] == " " + s;
    WordsSkipsSpace(s);
  }

  lemma TakeWordOf(w: string, rest: string)
    requires IsWord(w)
    requires rest == [] || IsSpace(rest[0])
    ensures TakeWord(w + rest) == w
    decreases |w|
  {
    if |w| > 1 {
      assert (w + rest)[1..] == w[1..] + rest;
      TakeWordOf(w[1..], rest);
    } else {
      assert (w + rest)[1..] == rest;
    }
  }

  lemma WordsSkipsSpace(s: string)
    ensures Words(" " + s) == Words(s)
  {
    assert (" " + s)[1..] == s;
  }

  /** A joined list of words needs no stripping. */
  lemma JoinSpaceStripped(ws: seq<string>)
    requires AllWords(ws)
    ensures Stripped(JoinSpace(ws))
  {
    if ws != [] {
      JoinSpaceEnds(ws);
    }
  }

  lemma {:induction false} JoinSpaceEnds(ws: seq<string>)
    requires AllWords(ws) && ws != []
    ensures var s := JoinSpace(ws); s != [] && s[0] == ws[0][0] && s[|s| - 1] == ws[|ws| - 1][|ws[|ws| - 1]| - 1]
  {
    assert IsWord(ws[0]);
    if |ws| > 1 {
      JoinSpaceEnds(ws[1..]);
    }
  }

  /** Stripping `w1 + " " + ... + wn + " "` gives `" ".join(ws)`. */
  lemma StripSpaced(ws: seq<string>)
    requires AllWords(ws)
    ensures Strip(Spaced(ws)) == JoinSpace(ws)
  {
    if ws != [] {
      SpacedIsJoinPlusSpace(ws);
      JoinSpaceEnds(ws);
      var j := JoinSpace(ws);
      assert TrimLeft(j + " ") == j + " ";
      assert (j + " ")[..|j + " "| - 1] == j;
      assert TrimRight(j + " ") == TrimRight(j);
    }
  }

  /** ASCII case folding; see README for the non-ASCII part of `str.lower()`. */
  function LowerChar(c: char): char {
    if 'A' <= c <= 'Z' then (c as int + 32) as char else c
  }

  function Lower(s: string): (r: string)
    ensures |r| == |s|
    ensures forall i :: 0 <= i < |s| ==> r[i] == LowerChar(s[i])
  {
    if s == [] then [] else [LowerChar(s[0])] + Lower(s[1..])
  }

  /** Concatenation regrouped, for loops that append a step to what they have written. */
  lemma AppendAssociative<T>(a: seq<T>, b: seq<T>, c: seq<T>)
    ensures a + b + c == a + (b + c)
  {
  }

  /** Lower-casing twice changes nothing more. */
  lemma {:induction false} LowerIdempotent(s: string)
    ensures Lower(Lower(s)) == Lower(s)
  {
    forall i | 0 <= i < |s|
      ensures Lower(Lower(s))[i] == Lower(s)[i]
    {
    }
  }

  /**
   * `Lower(name) == lit`, stated character by character so that a chain of
   * tag comparisons does not build the lower-cased string.
   */
  predicate LowerIs(name: string, lit: string) {
    |name| == |lit| && forall k :: 0 <= k < |lit| ==> LowerChar(name[k]) == lit[k]
  }

  lemma LowerIsLower(name: string, lit: string)
    ensures LowerIs(name, lit) <==> Lower(name) == lit
  {
    if LowerIs(name, lit) {
      assert Lower(name) == lit;
    }
  }

  /** Python's `sub in s` for sequences (strings and byte strings). */
  predicate Contains<T(==)>(s: seq<T>, sub: seq<T>) {
    if |sub| > |s| then false
    else s[..|sub|] == sub || Contains(s[1..], sub)
  }

  lemma {:induction false} ContainsAt<T>(s: seq<T>, sub: seq<T>, i: nat)
    requires i + |sub| <= |s| && s[i..i + |sub|] == sub
    ensures Contains(s, sub)
  {
    if i > 0 {
      assert s[1..][i - 1..i - 1 + |sub|] == s[i..i + |sub|];
      ContainsAt(s[1..], sub, i - 1);
    }
  }

  /** The index of the last `x` in `s`, or -1. */
  function LastIndexOf<T(==)>(s: seq<T>, x: T): (r: int)
    ensures -1 <= r < |s|
    ensures r == -1 <==> x !in s
    ensures r >= 0 ==> s[r] == x
    ensures forall j :: r < j < |s| ==> s[j] != x
  {
    if s == [] then -1
    else if s[|s| - 1] == x then |s| - 1
    else
      assert s == s[..|s| - 1] + [s[|s| - 1]];
      LastIndexOf(s[..|s| - 1], x)
  }

  /** `s.rsplit(x, 1)[1]`: the part after the last separator. */
  function AfterLast<T(==)>(s: seq<T>, x: T): (r: seq<T>)
    requires x in s
    ensures x !in r
  {
    s[LastIndexOf(s, x) + 1..]
  }

  /** `s.rsplit(x, 1)[0]`: the part before the last separator. */
  function BeforeLast<T(==)>(s: seq<T>, x: T): (r: seq<T>)
    requires x in s
    ensures s == r + [x] + AfterLast(s, x)
  {
    var k := LastIndexOf(s, x);
    assert s == s[..k] + [x] + s[k + 1..];
    s[..k]
  }

  /** The last separator of `a + [x] + b` is the one shown when `b` holds none. */
  lemma SplitAtLast<T>(a: seq<T>, x: T, b: seq<T>)
    requires x !in b
    ensures BeforeLast(a + [x] + b, x) == a && AfterLast(a + [x] + b, x) == b
  {
    var s := a + [x] + b;
    var k := LastIndexOf(s, x);
    assert s[|a|] == x;
    assert forall j :: |a| < j < |s| ==> s[j] == b[j - |a| - 1];
    assert k == |a|;
    assert s[..k] == a;
    assert s[k + 1..] == b;
  }
}
