/** Line handling shared by the two config renderers: reading a text as
    lines that keep their line feeds, and recognising the work-only marker
    comment. */
module RenderLines {
  import opened Text

  /** The tag a work-only marker comment carries. */
  const WorkTag: string := "__isWork__"

  // A marker line for a comment syntax that starts with `lead`: optional
  // whitespace, the comment lead, optional whitespace, the tag, and nothing
  // but whitespace after it. These are the regular expressions
  // ^\s*#\s*__isWork__\s*$ (lead "#") and ^\s*//\s*__isWork__\s*$ (lead "//").
  predicate IsWorkMarker(line: string, lead: string) {
    var t := LStrip(line);
    && StartsWith(t, lead)
    && var u := LStrip(t[|lead|..]);
    && StartsWith(u, WorkTag)
    && AllSpace(u[|WorkTag|..])
  }

  /** The characters str.splitlines() ends a line at. A carriage return
      directly followed by a line feed ends one line, not two. */
  predicate IsLineBoundary(c: char) {
    c == '\n' || c == '\r' || c == '\U{B}' || c == '\U{C}' || c == '\U{1C}' || c == '\U{1D}'
    || c == '\U{1E}' || c == '\U{85}' || c == '\U{2028}' || c == '\U{2029}'
  }

  /** str.splitlines(True): each line keeps the line boundary that ends it. */
  function LinesKeepEnds(text: string): seq<string> {
    LinesFrom(text, [])
  }

  /** The lines of `text` when `cur` has already been read into the
      current line. */
  function LinesFrom(text: string, cur: string): seq<string>
    decreases |text|
  {
    if text == [] then (if cur == [] then [] else [cur])
    else if text[0] == '\r' && |text| > 1 && text[1] == '\n' then [cur + "\r\n"] + LinesFrom(text[2..], [])
    else if IsLineBoundary(text[0]) then [cur + [text[0]]] + LinesFrom(text[1..], [])
    else LinesFrom(text[1..], cur + [text[0]])
  }

  /** A line as splitlines(True) produces it: not empty, and no line
      boundary before its end, the carriage return of a final "\r\n"
      aside. */
  predicate IsLine(line: string) {
    && line != []
    && forall k :: 0 <= k < |line| - 1 ==>
         !IsLineBoundary(line[k]) || (k == |line| - 2 && line[k] == '\r' && line[k + 1] == '\n')
  }

  /** Lines as splitlines(True) produces them: every line but the last
      ends in a line boundary. */
  predicate AreLines(ls: seq<string>) {
    && (forall k :: 0 <= k < |ls| ==> IsLine(ls[k]))
    && (forall k :: 0 <= k < |ls| - 1 ==> IsLineBoundary(ls[k][|ls[k]| - 1]))
  }

  /** A finished line cur + end followed by the lines of the rest. */
  lemma LinesCons(cur: string, end: string, rest: seq<string>)
    requires forall k :: 0 <= k < |cur| ==> !IsLineBoundary(cur[k])
    requires end == "\r\n" || (|end| == 1 && IsLineBoundary(end[0]))
    requires AreLines(rest)
    ensures AreLines([cur + end] + rest)
  {
    var ls := [cur + end] + rest;
    var l := cur + end;
    forall m | 0 <= m < |l| - 1
      ensures !IsLineBoundary(l[m]) || (m == |l| - 2 && l[m] == '\r' && l[m + 1] == '\n')
    {
      if m < |cur| {
        assert l[m] == cur[m];
      }
    }
    forall k | 0 <= k < |ls|
      ensures IsLine(ls[k])
    {
      if k > 0 {
        assert ls[k] == rest[k - 1];
      }
    }
    forall k | 0 <= k < |ls| - 1
      ensures IsLineBoundary(ls[k][|ls[k]| - 1])
    {
      if k > 0 {
        assert ls[k] == rest[k - 1];
      }
    }
  }

  lemma FlattenCons(l: string, rest: seq<string>)
    ensures Flatten([l] + rest) == l + Flatten(rest)
  {
    FlattenAppend([l], rest);
    assert Flatten([l]) == Flatten([]) + l;
  }

  /** A line ended after its first w characters, then the rest. */
  lemma LinesBreakFlatten(text: string, cur: string, w: nat)
    requires 0 < w <= |text| && Flatten(LinesFrom(text[w..], [])) == text[w..]
    ensures Flatten([cur + text[..w]] + LinesFrom(text[w..], [])) == cur + text
  {
    FlattenCons(cur + text[..w], LinesFrom(text[w..], []));
    assert cur + text == (cur + text[..w]) + text[w..];
  }

  /** Joining the lines gives the text back. */
  lemma {:induction false} LinesFromFlatten(text: string, cur: string)
    ensures Flatten(LinesFrom(text, cur)) == cur + text
    decreases |text|
  {
    if text == [] {
      assert cur + text == cur;
      if cur != [] {
        FlattenCons(cur, []);
      }
    } else if text[0] == '\r' && |text| > 1 && text[1] == '\n' {
      LinesFromFlatten(text[2..], []);
      assert text[..2] == "\r\n";
      LinesBreakFlatten(text, cur, 2);
    } else if IsLineBoundary(text[0]) {
      LinesFromFlatten(text[1..], []);
      assert text[..1] == [text[0]];
      LinesBreakFlatten(text, cur, 1);
    } else {
      LinesFromFlatten(text[1..], cur + [text[0]]);
      assert (cur + [text[0]]) + text[1..] == cur + text;
    }
  }

  /** What is read are lines. */
  lemma {:induction false} LinesFromAreLines(text: string, cur: string)
    requires forall k :: 0 <= k < |cur| ==> !IsLineBoundary(cur[k])
    ensures AreLines(LinesFrom(text, cur))
    decreases |text|
  {
    if text == [] {
    } else if text[0] == '\r' && |text| > 1 && text[1] == '\n' {
      LinesFromAreLines(text[2..], []);
      LinesCons(cur, "\r\n", LinesFrom(text[2..], []));
    } else if IsLineBoundary(text[0]) {
      LinesFromAreLines(text[1..], []);
      LinesCons(cur, [text[0]], LinesFrom(text[1..], []));
    } else {
      var cur' := cur + [text[0]];
      assert forall k :: 0 <= k < |cur'| ==> !IsLineBoundary(cur'[k]) by {
        assert forall k :: 0 <= k < |cur| ==> cur'[k] == cur[k];
      }
      LinesFromAreLines(text[1..], cur');
    }
  }

  /** splitlines(True) keeps every character, in lines. */
  lemma LinesKeepEndsSpec(text: string)
    ensures Flatten(LinesKeepEnds(text)) == text
    ensures AreLines(LinesKeepEnds(text))
  {
    LinesFromFlatten(text, []);
    LinesFromAreLines(text, []);
    assert [] + text == text;
  }

  /** Why a render fails: the decoder rejected the text, a value that must
      be an object is not one, or the tool is not known. */
  datatype RenderError = InvalidJson | DataNotObject | McpNotObject | UnknownTool(tool: string)
}
