/** The Codex configuration filter: the TOML lines are cut into sections at
    table headers; a personal render drops every section that carries a
    "# __isWork__" marker line, and every render drops the marker lines
    themselves. */
module CodexRender {
  import opened Text
  import opened RenderLines

  /** A line that opens a TOML table: stripped, it is not empty, starts
      with "[" and ends with "]" (and does not start with "#"). */
  predicate IsTableHeader(line: string) {
    var s := Strip(line);
    s != [] && s[0] == '[' && s[|s| - 1] == ']' && !StartsWith(s, "#")
  }

  predicate IsCodexMarker(line: string) {
    IsWorkMarker(line, "#")
  }

  // ---------------------------------------------------------------------
  // Sections

  /** The sections of a line sequence: the lines before the first header,
      then one section per header holding it and the lines up to the next
      header. */
  function Sections(lines: seq<string>): (secs: seq<seq<string>>)
    ensures |secs| > 0
    decreases |lines|
  {
    if lines == [] then [[]]
    else
      var p := Sections(lines[..|lines| - 1]);
      var l := lines[|lines| - 1];
      if IsTableHeader(l) then p + [[l]]
      else p[..|p| - 1] + [p[|p| - 1] + [l]]
  }

  /** The sections hold all lines, in order. */
  lemma {:induction false} SectionsFlatten(lines: seq<string>)
    ensures Flatten(Sections(lines)) == lines
    decreases |lines|
  {
    if lines != [] {
      var init := lines[..|lines| - 1];
      var p := Sections(init);
      var l := lines[|lines| - 1];
      SectionsFlatten(init);
      assert lines == init + [l];
      if IsTableHeader(l) {
        FlattenAppend(p, [[l]]);
        assert Flatten([[l]]) == Flatten([]) + [l];
      } else {
        var q := p[..|p| - 1];
        assert p == q + [p[|p| - 1]];
        FlattenAppend(q, [p[|p| - 1]]);
        FlattenAppend(q, [p[|p| - 1] + [l]]);
        assert Flatten([p[|p| - 1]]) == Flatten([]) + p[|p| - 1];
        assert Flatten([p[|p| - 1] + [l]]) == Flatten([]) + (p[|p| - 1] + [l]);
      }
    }
  }

  /** The first section holds no header; every later section starts with
      its header and holds no other. */
  predicate SectionsShaped(secs: seq<seq<string>>) {
    && |secs| > 0
    && (forall i :: 0 <= i < |secs[0]| ==> !IsTableHeader(secs[0][i]))
    && (forall k :: 1 <= k < |secs| ==>
          secs[k] != [] && IsTableHeader(secs[k][0])
          && forall i :: 1 <= i < |secs[k]| ==> !IsTableHeader(secs[k][i]))
  }

  /** A line that is not a header extends the last section. */
  lemma ShapedExtend(p: seq<seq<string>>, l: string)
    requires SectionsShaped(p) && !IsTableHeader(l)
    ensures SectionsShaped(p[..|p| - 1] + [p[|p| - 1] + [l]])
  {
    var r := p[..|p| - 1] + [p[|p| - 1] + [l]];
    assert forall k :: 0 <= k < |p| - 1 ==> r[k] == p[k];
    assert r[|p| - 1] == p[|p| - 1] + [l];
  }

  /** Only the first line of a section after the first is a header. */
  lemma {:induction false} SectionsShape(lines: seq<string>)
    ensures SectionsShaped(Sections(lines))
    decreases |lines|
  {
    if lines != [] {
      var init := lines[..|lines| - 1];
      var l := lines[|lines| - 1];
      SectionsShape(init);
      if !IsTableHeader(l) {
        ShapedExtend(Sections(init), l);
      }
    }
  }

  // ---------------------------------------------------------------------
  // Rendering

  predicate HasMarker(section: seq<string>) {
    exists i :: 0 <= i < |section| && IsCodexMarker(section[i])
  }

  /** The lines that are not marker lines, in order. */
  function WithoutMarkers(ls: seq<string>): seq<string>
    decreases |ls|
  {
    if ls == [] then []
    else WithoutMarkers(ls[..|ls| - 1]) + (if IsCodexMarker(ls[|ls| - 1]) then [] else [ls[|ls| - 1]])
  }

  /** What one section contributes to the output. */
  function SectionOut(isWork: bool, section: seq<string>): seq<string> {
    if section == [] || (!isWork && HasMarker(section)) then [] else WithoutMarkers(section)
  }

  function Emit(isWork: bool, secs: seq<seq<string>>): seq<string>
    decreases |secs|
  {
    if secs == [] then []
    else Emit(isWork, secs[..|secs| - 1]) + SectionOut(isWork, secs[|secs| - 1])
  }

  /** The output lines of a render. */
  function CodexLines(isWork: bool, lines: seq<string>): seq<string> {
    Emit(isWork, Sections(lines))
  }

  /** The section loop of render_codex_config: a header closes the
      current section and opens a new one. */
  method SplitSections(lines: seq<string>) returns (sections: seq<seq<string>>)
    ensures sections == Sections(lines)
  {
    sections := [];
    var current: seq<string> := [];
    for i := 0 to |lines|
      invariant sections + [current] == Sections(lines[..i])
    {
      var line := lines[i];
      assert lines[..i + 1][..i] == lines[..i];
      if IsTableHeader(line) {
        sections := sections + [current];
        current := [line];
      } else {
        current := current + [line];
      }
    }
    sections := sections + [current];
    assert lines[..|lines|] == lines;
  }

  /** render_codex_config on the lines of the file: the sections, the
      output loop over them, then "".join. */
  method RenderCodex(isWork: bool, lines: seq<string>) returns (text: string)
    ensures text == Flatten(CodexLines(isWork, lines))
  {
    var sections := SplitSections(lines);
    var out: seq<string> := [];
    for n := 0 to |sections|
      invariant out == Emit(isWork, sections[..n])
    {
      var section := sections[n];
      assert sections[..n + 1][..n] == sections[..n];
      if section == [] {
        continue;
      }
      var isWorkOnly := HasMarker(section);
      if !isWork && isWorkOnly {
        continue;
      }
      out := EmitSection(out, section);
    }
    assert sections[..|sections|] == sections;
    text := Flatten(out);
  }

  /** The inner output loop: every line of a kept section that is not a
      marker line. */
  method EmitSection(before: seq<string>, section: seq<string>) returns (out: seq<string>)
    ensures out == before + WithoutMarkers(section)
  {
    out := before;
    for m := 0 to |section|
      invariant out == before + WithoutMarkers(section[..m])
    {
      assert section[..m + 1][..m] == section[..m];
      if IsCodexMarker(section[m]) {
        continue;
      }
      out := out + [section[m]];
    }
    assert section[..|section|] == section;
  }

  // ---------------------------------------------------------------------
  // Marker lines

  lemma {:induction false} WithoutMarkersAppend(a: seq<string>, b: seq<string>)
    ensures WithoutMarkers(a + b) == WithoutMarkers(a) + WithoutMarkers(b)
    decreases |b|
  {
    if b == [] {
      assert a + b == a;
    } else {
      assert (a + b)[..|a + b| - 1] == a + b[..|b| - 1];
      WithoutMarkersAppend(a, b[..|b| - 1]);
    }
  }

  /** No marker line is left. */
  lemma {:induction false} WithoutMarkersClean(ls: seq<string>)
    ensures forall k :: 0 <= k < |WithoutMarkers(ls)| ==> !IsCodexMarker(WithoutMarkers(ls)[k])
    decreases |ls|
  {
    if ls != [] {
      WithoutMarkersClean(ls[..|ls| - 1]);
    }
  }

  /** Lines without marker lines are left as they are. */
  lemma {:induction false} WithoutMarkersNone(ls: seq<string>)
    requires forall k :: 0 <= k < |ls| ==> !IsCodexMarker(ls[k])
    ensures WithoutMarkers(ls) == ls
    decreases |ls|
  {
    if ls != [] {
      WithoutMarkersNone(ls[..|ls| - 1]);
    }
  }

  // ---------------------------------------------------------------------
  // What a render outputs

  lemma {:induction false} EmitWork(secs: seq<seq<string>>)
    ensures Emit(true, secs) == WithoutMarkers(Flatten(secs))
    decreases |secs|
  {
    if secs != [] {
      var p := secs[..|secs| - 1];
      var s := secs[|secs| - 1];
      EmitWork(p);
      WithoutMarkersAppend(Flatten(p), s);
    }
  }

  /** A work render keeps every line but the marker lines, in order. */
  lemma CodexWork(lines: seq<string>)
    ensures CodexLines(true, lines) == WithoutMarkers(lines)
  {
    EmitWork(Sections(lines));
    SectionsFlatten(lines);
  }

  /** The sections without a marker line, in order. */
  function Unmarked(secs: seq<seq<string>>): seq<seq<string>>
    decreases |secs|
  {
    if secs == [] then []
    else Unmarked(secs[..|secs| - 1]) + (if HasMarker(secs[|secs| - 1]) then [] else [secs[|secs| - 1]])
  }

  lemma {:induction false} EmitPersonal(secs: seq<seq<string>>)
    ensures Emit(false, secs) == Flatten(Unmarked(secs))
    decreases |secs|
  {
    if secs != [] {
      var p := secs[..|secs| - 1];
      var s := secs[|secs| - 1];
      EmitPersonal(p);
      if HasMarker(s) {
        assert Unmarked(secs) == Unmarked(p);
      } else {
        forall k | 0 <= k < |s|
          ensures !IsCodexMarker(s[k])
        {
        }
        WithoutMarkersNone(s);
        FlattenAppend(Unmarked(p), [s]);
        assert Flatten([s]) == Flatten([]) + s;
      }
    }
  }

  /** A personal render outputs, in order and unchanged, exactly the
      sections that hold no marker line; a marked preamble is dropped like
      any other section. */
  lemma CodexPersonal(lines: seq<string>)
    ensures CodexLines(false, lines) == Flatten(Unmarked(Sections(lines)))
  {
    EmitPersonal(Sections(lines));
  }

  lemma {:induction false} EmitClean(isWork: bool, secs: seq<seq<string>>)
    ensures forall k :: 0 <= k < |Emit(isWork, secs)| ==> !IsCodexMarker(Emit(isWork, secs)[k])
    decreases |secs|
  {
    if secs != [] {
      var p := secs[..|secs| - 1];
      var s := secs[|secs| - 1];
      EmitClean(isWork, p);
      WithoutMarkersClean(s);
    }
  }

  /** A render never outputs a marker line. */
  lemma CodexNoMarkers(isWork: bool, lines: seq<string>)
    ensures forall k :: 0 <= k < |CodexLines(isWork, lines)| ==> !IsCodexMarker(CodexLines(isWork, lines)[k])
  {
    EmitClean(isWork, Sections(lines));
  }

  lemma {:induction false} EmitUnmarked(isWork: bool, secs: seq<seq<string>>)
    requires forall k :: 0 <= k < |Flatten(secs)| ==> !IsCodexMarker(Flatten(secs)[k])
    ensures Emit(isWork, secs) == Flatten(secs)
    decreases |secs|
  {
    if secs != [] {
      var p := secs[..|secs| - 1];
      var s := secs[|secs| - 1];
      assert Flatten(secs) == Flatten(p) + s;
      forall k | 0 <= k < |Flatten(p)|
        ensures !IsCodexMarker(Flatten(p)[k])
      {
        assert Flatten(p)[k] == Flatten(secs)[k];
      }
      forall k | 0 <= k < |s|
        ensures !IsCodexMarker(s[k])
      {
        assert s[k] == Flatten(secs)[|Flatten(p)| + k];
      }
      EmitUnmarked(isWork, p);
      WithoutMarkersNone(s);
    }
  }

  /** Lines without marker lines render to themselves, with either flag. */
  lemma CodexUnmarked(isWork: bool, lines: seq<string>)
    requires forall k :: 0 <= k < |lines| ==> !IsCodexMarker(lines[k])
    ensures CodexLines(isWork, lines) == lines
  {
    SectionsFlatten(lines);
    EmitUnmarked(isWork, Sections(lines));
  }

  /** Rendering the output again with the same flag changes nothing. */
  lemma CodexIdempotent(isWork: bool, lines: seq<string>)
    ensures CodexLines(isWork, CodexLines(isWork, lines)) == CodexLines(isWork, lines)
  {
    CodexNoMarkers(isWork, lines);
    CodexUnmarked(isWork, CodexLines(isWork, lines));
  }

  // ---------------------------------------------------------------------
  // The output is a subsequence of the input

  function MarkerMask(ls: seq<string>): (mask: seq<bool>)
    ensures |mask| == |ls|
  {
    seq(|ls|, k requires 0 <= k < |ls| => !IsCodexMarker(ls[k]))
  }

  lemma {:induction false} WithoutMarkersPick(ls: seq<string>)
    ensures WithoutMarkers(ls) == Pick(ls, MarkerMask(ls))
    decreases |ls|
  {
    if ls != [] {
      var p := ls[..|ls| - 1];
      assert MarkerMask(ls)[..|ls| - 1] == MarkerMask(p);
      WithoutMarkersPick(p);
    }
  }

  function NoneMask(n: nat): (mask: seq<bool>)
    ensures |mask| == n
  {
    seq(n, k => false)
  }

  lemma {:induction false} PickNone<T>(s: seq<T>)
    ensures Pick(s, NoneMask(|s|)) == []
    decreases |s|
  {
    if s != [] {
      assert NoneMask(|s|)[..|s| - 1] == NoneMask(|s| - 1);
      PickNone(s[..|s| - 1]);
    }
  }

  function SectionMask(isWork: bool, section: seq<string>): (mask: seq<bool>)
    ensures |mask| == |section|
  {
    if section == [] || (!isWork && HasMarker(section)) then NoneMask(|section|) else MarkerMask(section)
  }

  function EmitMask(isWork: bool, secs: seq<seq<string>>): (mask: seq<bool>)
    ensures |mask| == |Flatten(secs)|
    decreases |secs|
  {
    if secs == [] then []
    else EmitMask(isWork, secs[..|secs| - 1]) + SectionMask(isWork, secs[|secs| - 1])
  }

  lemma {:induction false} EmitPick(isWork: bool, secs: seq<seq<string>>)
    ensures Pick(Flatten(secs), EmitMask(isWork, secs)) == Emit(isWork, secs)
    decreases |secs|
  {
    if secs != [] {
      var p := secs[..|secs| - 1];
      var s := secs[|secs| - 1];
      EmitPick(isWork, p);
      PickAppend(Flatten(p), EmitMask(isWork, p), s, SectionMask(isWork, s));
      if s == [] || (!isWork && HasMarker(s)) {
        PickNone(s);
      } else {
        WithoutMarkersPick(s);
      }
    }
  }

  /** A render outputs some of the input lines, in their input order. */
  lemma CodexSubseq(isWork: bool, lines: seq<string>)
    ensures IsSubseq(CodexLines(isWork, lines), lines)
  {
    SectionsFlatten(lines);
    EmitPick(isWork, Sections(lines));
    var mask := EmitMask(isWork, Sections(lines));
    assert |mask| == |lines| && Pick(lines, mask) == CodexLines(isWork, lines);
  }
}
