/** The entry points of render_tool_config: reading the work flag from
    its command-line spelling, and choosing the renderer by tool name. */
module ToolRender {
  import opened Wrappers
  import opened Text
  import opened RenderLines
  import opened CodexRender
  import opened OpencodeRender

  /** The spellings of true and of false, after strip() and lower(). */
  const TrueWords: set<string> := {"true", "1", "yes", "y"}
  const FalseWords: set<string> := {"false", "0", "no", "n"}

  /** The message of the ValueError carries the original text. */
  datatype BoolError = InvalidBoolean(text: string)

  /** _parse_bool */
  function ParseBool(s: string): (r: Result<bool, BoolError>)
    ensures r.Err? ==> r.error == InvalidBoolean(s)
  {
    var normalized := ToLower(Strip(s));
    if normalized in TrueWords then Ok(true)
    else if normalized in FalseWords then Ok(false)
    else Err(InvalidBoolean(s))
  }

  /** The value read depends only on the normalised text: case and
      surrounding whitespace do not matter. */
  lemma ParseBoolNormal(s: string, t: string)
    requires ToLower(Strip(s)) == ToLower(Strip(t))
    ensures ParseBool(s).Ok? <==> ParseBool(t).Ok?
    ensures ParseBool(s).Ok? ==> ParseBool(s).value == ParseBool(t).value
  {
  }

  /** Upper-casing the argument reads the same value. */
  lemma ParseBoolUpper(s: string)
    ensures ParseBool(ToUpper(s)).Ok? <==> ParseBool(s).Ok?
    ensures ParseBool(s).Ok? ==> ParseBool(ToUpper(s)).value == ParseBool(s).value
  {
    LStripUpper(s);
    RStripUpper(LStrip(s));
    LowerUpper(Strip(s));
    ParseBoolNormal(ToUpper(s), s);
  }

  /** Whitespace around the argument reads the same value. */
  lemma ParseBoolPadded(ws1: string, s: string, ws2: string)
    requires AllSpace(ws1) && AllSpace(ws2)
    ensures ParseBool(ws1 + s + ws2).Ok? <==> ParseBool(s).Ok?
    ensures ParseBool(s).Ok? ==> ParseBool(ws1 + s + ws2).value == ParseBool(s).value
  {
    StripPadded(ws1, s, ws2);
    ParseBoolNormal(ws1 + s + ws2, s);
  }

  /** Accepted words are read as their truth value, and no spelling is
      read both ways: the two word sets are disjoint. */
  lemma ParseBoolWords(s: string)
    ensures ParseBool(s) == Ok(true) <==> ToLower(Strip(s)) in TrueWords
    ensures ParseBool(s) == Ok(false) <==> ToLower(Strip(s)) in FalseWords
    ensures ParseBool(s).Err? <==> ToLower(Strip(s)) !in TrueWords + FalseWords
  {
    assert TrueWords * FalseWords == {};
  }

  // ---------------------------------------------------------------------
  // Choosing the renderer

  /** _render on the text read from the file. */
  function RenderOutput(tool: string, isWork: bool, text: string,
                        decode: string -> Option<Json>, encode: Json -> string): Result<string, RenderError>
  {
    if tool == "codex" then Ok(Flatten(CodexLines(isWork, LinesKeepEnds(text))))
    else if tool == "opencode" then OpencodeOutput(isWork, text, decode, encode)
    else Err(UnknownTool(tool))
  }

  /** _render: the codex renderer works on the lines of the text, the
      opencode renderer on the text; any other tool name is an error. */
  method Render(tool: string, isWork: bool, text: string,
                decode: string -> Option<Json>, encode: Json -> string)
    returns (r: Result<string, RenderError>)
    ensures r == RenderOutput(tool, isWork, text, decode, encode)
  {
    if tool == "codex" {
      var out := RenderCodex(isWork, LinesKeepEnds(text));
      return Ok(out);
    }
    if tool == "opencode" {
      r := RenderOpencode(isWork, text, decode, encode);
      return;
    }
    return Err(UnknownTool(tool));
  }

  /** Only the two known tools render. */
  lemma RenderUnknown(tool: string, isWork: bool, text: string,
                      decode: string -> Option<Json>, encode: Json -> string)
    ensures RenderOutput(tool, isWork, text, decode, encode).Err? && tool != "opencode"
        <==> tool != "codex" && tool != "opencode"
    ensures tool != "codex" && tool != "opencode" ==>
              RenderOutput(tool, isWork, text, decode, encode) == Err(UnknownTool(tool))
  {
  }

  /** In work mode the codex output is the text without its marker
      lines. */
  lemma CodexRenderWork(text: string, decode: string -> Option<Json>, encode: Json -> string)
    ensures RenderOutput("codex", true, text, decode, encode) == Ok(Flatten(WithoutMarkers(LinesKeepEnds(text))))
  {
    CodexWork(LinesKeepEnds(text));
  }

  /** A codex text without marker lines renders to itself in either
      mode. */
  lemma CodexRenderUnmarked(isWork: bool, text: string, decode: string -> Option<Json>, encode: Json -> string)
    requires forall k :: 0 <= k < |LinesKeepEnds(text)| ==> !IsCodexMarker(LinesKeepEnds(text)[k])
    ensures RenderOutput("codex", isWork, text, decode, encode) == Ok(text)
  {
    CodexUnmarked(isWork, LinesKeepEnds(text));
    LinesKeepEndsSpec(text);
  }
}
