/** One-line previews of free text (nark/helpers/format_text.py). */
module FormatText {
  import opened Wrappers

  /** The characters `str.splitlines` breaks at (`\r\n` counts as one break). */
  predicate IsLineBreak(c: char) {
    c == '\n' || c == '\r' || c == '\U{b}' || c == '\U{c}' || ('\U{1c}' <= c <= '\U{1e}')
    || c == '\U{85}' || c == '\U{2028}' || c == '\U{2029}'
  }

  predicate NoBreak(s: string) { forall i :: 0 <= i < |s| ==> !IsLineBreak(s[i]) }

  /** The index of the first line break, or the length when there is none. */
  function LineEnd(s: string): (i: nat)
    ensures i <= |s| && NoBreak(s[..i])
    ensures i < |s| ==> IsLineBreak(s[i])
  {
    if s == [] || IsLineBreak(s[0]) then 0
    else
      var j := LineEnd(s[1..]);
      assert s[..1 + j] == [s[0]] + s[1..][..j];
      1 + j
  }

  /** `s.splitlines()`: the lines without their terminators; a final terminator
      does not open another line, and the empty text has no lines. */
  function SplitLines(s: string): (r: seq<string>)
    ensures forall k :: 0 <= k < |r| ==> NoBreak(r[k])
    ensures s == [] <==> r == []
    decreases |s|
  {
    if s == [] then []
    else
      var i := LineEnd(s);
      if i == |s| then [s]
      else
        var width := if s[i] == '\r' && i + 1 < |s| && s[i + 1] == '\n' then 2 else 1;
        [s[..i]] + SplitLines(s[i + width..])
  }

  /** Lines joined by a newline, as `'\n'.join(lines)` builds them. */
  function Unsplit(lines: seq<string>): string {
    if lines == [] then ""
    else if |lines| == 1 then lines[0]
    else lines[0] + "\n" + Unsplit(lines[1..])
  }

  /** `splitlines` undoes `'\n'.join`: lines without breaks, the last one not
      empty, come back as they were joined. */
  lemma {:induction false} SplitUnsplit(lines: seq<string>)
    requires lines != [] && lines[|lines| - 1] != []
    requires forall k :: 0 <= k < |lines| ==> NoBreak(lines[k])
    ensures SplitLines(Unsplit(lines)) == lines
    decreases |lines|
  {
    var a := lines[0];
    if |lines| == 1 {
      assert a[..|a|] == a;
      LineEndAt(a, |a|);
    } else {
      var rest := Unsplit(lines[1..]);
      SplitUnsplit(lines[1..]);
      var s := a + "\n" + rest;
      assert s[..|a|] == a;
      LineEndAt(s, |a|);
      assert s[|a| + 1..] == rest;
      assert rest != [] by { UnsplitNonEmpty(lines[1..]); }
    }
  }

  lemma {:induction false} UnsplitNonEmpty(lines: seq<string>)
    requires lines != [] && lines[|lines| - 1] != []
    ensures Unsplit(lines) != []
    decreases |lines|
  {
    if |lines| > 1 {
      UnsplitNonEmpty(lines[1..]);
    }
  }

  /** The two-character escape `\n` that replaces each line break. */
  const EscapedNewline: string := "\\n"

  function JoinLines(lines: seq<string>): (r: string)
    requires forall k :: 0 <= k < |lines| ==> NoBreak(lines[k])
    ensures NoBreak(r)
  {
    if lines == [] then ""
    else if |lines| == 1 then lines[0]
    else
      var rest := JoinLines(lines[1..]);
      NoBreakConcat(lines[0], EscapedNewline);
      NoBreakConcat(lines[0] + EscapedNewline, rest);
      lines[0] + EscapedNewline + rest
  }

  lemma NoBreakConcat(a: string, b: string)
    requires NoBreak(a) && NoBreak(b)
    ensures NoBreak(a + b)
  {
    forall i | 0 <= i < |a + b| ensures !IsLineBreak((a + b)[i]) {
      if i >= |a| { assert (a + b)[i] == b[i - |a|]; }
    }
  }

  /** Python's `v[:k]`, where a negative `k` counts back from the end. */
  function Prefix(v: string, k: int): (r: string)
    ensures |r| == if k >= 0 then (if k <= |v| then k else |v|) else (if |v| + k > 0 then |v| + k else 0)
    ensures r == v[..|r|]
  {
    if k >= 0 then (if k <= |v| then v[..k] else v)
    else if |v| + k > 0 then v[..|v| + k] else []
  }

  /** `format_value_truncate`: an empty value comes back as it is; otherwise the
      line breaks are written as `\n` and, when a width is given and exceeded,
      the text is cut to `width - 3` characters followed by `...`. */
  function FormatValueTruncate(val: string, width: Option<int>): (r: string)
    ensures val == [] ==> r == []
    ensures NoBreak(r)
    ensures val != [] && (width.None? || width.value < 0 || |Escaped(val)| <= width.value) ==> r == Escaped(val)
    ensures val != [] && width.Some? && 3 <= width.value < |Escaped(val)| ==>
      |r| == width.value && r[..width.value - 3] == Escaped(val)[..width.value - 3]
  {
    if val == [] then val
    else
      var v := JoinLines(SplitLines(val));
      if width.Some? && |v| > width.value && width.value >= 0 then Prefix(v, width.value - 3) + "..."
      else v
  }

  /** The escaped text before any truncation. */
  function Escaped(val: string): (v: string)
    ensures NoBreak(v)
  {
    JoinLines(SplitLines(val))
  }

  /** Text on a single line is left alone unless it is too wide. */
  lemma SingleLineUnchanged(val: string, width: Option<int>)
    requires NoBreak(val)
    requires width.None? || |val| <= width.value
    ensures FormatValueTruncate(val, width) == val
  {
    if val != [] {
      assert LineEnd(val) == |val|;
    }
  }

  /** With a width of three or more the preview is exactly that wide, keeps the
      start of the escaped text and ends in an ellipsis. */
  lemma TruncatedWidth(val: string, w: int)
    requires 3 <= w < |Escaped(val)|
    ensures var r := FormatValueTruncate(val, Some(w));
      |r| == w && r[..w - 3] == Escaped(val)[..w - 3] && r[w - 3..] == "..."
  {
  }

  /** Below a width of three the negative slice keeps `|text| - 3 + width`
      characters, so the preview is always wider than asked for. */
  lemma NarrowWidthOverflows(val: string, w: int)
    requires 0 <= w < 3 && w < |Escaped(val)|
    ensures var r := FormatValueTruncate(val, Some(w));
      |r| > w && r[|r| - 3..] == "..."
      && |r| == (if |Escaped(val)| - 3 + w > 0 then |Escaped(val)| - 3 + w else 0) + 3
  {
  }

  /** A multi-line value reads as one line: each break becomes the escape. */
  lemma TwoLines(a: string, b: string)
    requires NoBreak(a) && NoBreak(b) && b != []
    ensures FormatValueTruncate(a + "\n" + b, None) == a + EscapedNewline + b
  {
    var s := a + "\n" + b;
    assert LineEnd(s) == |a| by {
      assert s[..|a|] == a;
      LineEndAt(s, |a|);
    }
    assert s[|a| + 1..] == b;
    assert LineEnd(b) == |b| by { assert b[..|b|] == b; LineEndAt(b, |b|); }
    assert SplitLines(b) == [b];
    assert s[..|a|] == a;
    assert SplitLines(s) == [a, b];
    assert JoinLines([a, b]) == a + EscapedNewline + JoinLines([b]);
  }

  lemma LineEndAt(s: string, i: nat)
    requires i <= |s| && NoBreak(s[..i]) && (i < |s| ==> IsLineBreak(s[i]))
    ensures LineEnd(s) == i
  {
    if s != [] && i > 0 {
      assert s[1..][..i - 1] == s[..i][1..];
      LineEndAt(s[1..], i - 1);
    }
  }
}
