/** Reading back what the merger writes: for entries whose command and
    paths can be written unambiguously, parsing the written history gives
    the same dictionary, in the same order. */
module HistoryRoundTrip {
  import opened Wrappers
  import opened Text
  import opened Numerals
  import opened HistoryEntries
  import opened HistoryParse
  import opened HistoryMerge

  // ---------------------------------------------------------------------
  // Which entries can be written and read back

  /** A command survives being written after "- cmd: " and read back: it
      is one line, has no whitespace at its edges (strip() would eat it)
      and holds no marker (split would cut it). */
  predicate CmdWritable(c: string) {
    && c != []
    && !IsSpace(c[0]) && !IsSpace(c[|c| - 1])
    && '\n' !in c
    && !Contains(c, CmdMarker)
  }

  /** A path survives being written after "    - ": it is one line, holds
      no marker, and does not start with "cmd: " (which would complete the
      "- " of its item prefix into a marker). */
  predicate PathWritable(p: string) {
    '\n' !in p && !Contains(p, CmdMarker) && !StartsWith(p, "cmd: ")
  }

  /** An entry survives a write and a read. The last path must also end in
      a non-space character: strip() of the piece would otherwise shorten
      or drop the last item line. */
  predicate Writable(e: Entry) {
    && CmdWritable(e.cmd)
    && (e.paths.Some? ==>
          && (forall k :: 0 <= k < |e.paths.value| ==> PathWritable(e.paths.value[k]))
          && (|e.paths.value| > 0 ==>
                var last := e.paths.value[|e.paths.value| - 1];
                last != [] && !IsSpace(last[|last| - 1])))
  }

  // ---------------------------------------------------------------------
  // The piece each written entry becomes

  /** The lines of an entry as its piece holds them: the marker is gone
      from the first line. */
  function BodyLines(e: Entry): seq<string> {
    [e.cmd] + WhenLines(e) + PathsBlock(e)
  }

  /** The text between an entry's marker and the next marker. */
  function Body(e: Entry): string {
    Unlines(BodyLines(e))
  }

  function Bodies(es: seq<Entry>): seq<string> {
    seq(|es|, k requires 0 <= k < |es| => Body(es[k]))
  }

  lemma BodiesFront(es: seq<Entry>)
    requires es != []
    ensures Bodies(es) == [Body(es[0])] + Bodies(es[1..])
  {
  }

  /** An entry's text is a marker followed by its body. */
  lemma EntryTextBody(e: Entry)
    ensures EntryText(e) == CmdMarker + Body(e)
  {
    var tail := WhenLines(e) + PathsBlock(e);
    assert EntryLines(e) == [CmdMarker + e.cmd] + tail;
    assert BodyLines(e) == [e.cmd] + tail;
    UnlinesCons(CmdMarker + e.cmd, tail);
    UnlinesCons(e.cmd, tail);
  }

  /** The history text read from the front. */
  lemma {:induction false} HistoryTextFront(es: seq<Entry>)
    requires es != []
    ensures HistoryText(es) == EntryText(es[0]) + HistoryText(es[1..])
    decreases |es|
  {
    if |es| > 1 {
      var p := es[..|es| - 1];
      var rest := es[1..];
      HistoryTextFront(p);
      assert p[1..] == rest[..|rest| - 1];
      assert p[0] == es[0];
      assert rest[|rest| - 1] == es[|es| - 1];
      assert HistoryText(rest) == HistoryText(p[1..]) + EntryText(es[|es| - 1]);
      AppendAssoc(EntryText(es[0]), HistoryText(p[1..]), EntryText(es[|es| - 1]));
    } else {
      assert es[..0] == [] && es[1..] == [];
    }
  }

  // ---------------------------------------------------------------------
  // No written line holds a marker or a line feed

  /** A text missing one of a pattern's characters does not contain it. */
  lemma NoCharNoContains(s: string, pat: string, i: nat)
    requires i < |pat| && pat[i] !in s
    ensures !Contains(s, pat)
  {
    forall k | 0 <= k <= |s| - |pat|
      ensures !OccursAt(s, pat, k)
    {
      assert s[k..k + |pat|][i] == s[k + i];
      assert s[k + i] in s;
    }
  }

  lemma WhenLineClean(t: int)
    ensures '\n' !in WhenPrefix + IntToString(t)
    ensures !Contains(WhenPrefix + IntToString(t), CmdMarker)
  {
    var d := IntToString(t);
    var line := WhenPrefix + d;
    forall k | 0 <= k < |line|
      ensures line[k] != 'c' && line[k] != '\n'
    {
      if k >= |WhenPrefix| {
        assert line[k] == d[k - |WhenPrefix|];
      }
    }
    NoCharNoContains(line, CmdMarker, 2);
  }

  lemma PathsLineClean()
    ensures '\n' !in PathsPrefix && !Contains(PathsPrefix, CmdMarker)
  {
    assert 'c' !in PathsPrefix;
    NoCharNoContains(PathsPrefix, CmdMarker, 2);
  }

  /** The item line of a writable path holds no marker: the marker can
      start neither in the indentation nor at the item's "- ". */
  lemma ItemLineClean(p: string)
    requires PathWritable(p)
    ensures '\n' !in PathItemPrefix + p
    ensures !Contains(PathItemPrefix + p, CmdMarker)
  {
    var s := PathItemPrefix + p;
    forall k | 0 <= k < |s|
      ensures s[k] != '\n'
    {
      if k >= |PathItemPrefix| {
        assert s[k] == p[k - |PathItemPrefix|];
      }
    }
    forall k | 0 <= k <= |s| - |CmdMarker|
      ensures !OccursAt(s, CmdMarker, k)
    {
      if k >= |PathItemPrefix| {
        OccursAtShift(PathItemPrefix, p, CmdMarker, k - |PathItemPrefix|);
      } else if k == 4 {
        assert s[k..k + |CmdMarker|][2..] == p[..5];
        assert CmdMarker[2..] == "cmd: ";
      } else {
        assert s[k..k + |CmdMarker|][0] == s[k] == ' ';
      }
    }
  }

  lemma BodyLinesClean(e: Entry)
    requires Writable(e)
    ensures forall i :: 0 <= i < |BodyLines(e)| ==>
      '\n' !in BodyLines(e)[i] && !Contains(BodyLines(e)[i], CmdMarker)
  {
    forall i | 0 <= i < |BodyLines(e)|
      ensures '\n' !in BodyLines(e)[i] && !Contains(BodyLines(e)[i], CmdMarker)
    {
      BodyLineClean(e, i);
    }
  }

  lemma BodyLineClean(e: Entry, i: nat)
    requires Writable(e) && i < |BodyLines(e)|
    ensures '\n' !in BodyLines(e)[i] && !Contains(BodyLines(e)[i], CmdMarker)
  {
    var w := |WhenLines(e)|;
    var line := BodyLine(e, i);
    if i == 0 {
    } else if i < 1 + w {
      WhenLineClean(e.when.value);
    } else if i == 1 + w {
      PathsLineClean();
    } else {
      var p := e.paths.value[i - 2 - w];
      assert PathWritable(p);
      ItemLineClean(p);
    }
  }

  /** Line i of a body. */
  lemma BodyLine(e: Entry, i: nat) returns (line: string)
    requires i < |BodyLines(e)|
    ensures line == BodyLines(e)[i]
    ensures var w := |WhenLines(e)|;
      && (i == 0 ==> line == e.cmd)
      && (0 < i < 1 + w ==> line == WhenPrefix + IntToString(e.when.value))
      && (i == 1 + w ==> line == PathsPrefix)
      && (i > 1 + w ==> e.paths.Some? && i - 2 - w < |e.paths.value|
                        && line == PathItemPrefix + e.paths.value[i - 2 - w])
  {
    var ls := BodyLines(e);
    var w := |WhenLines(e)|;
    BodyLinesShape(e);
    line := ls[i];
    if i > 1 + w {
      assert ls[i] == ls[2 + w..][i - 2 - w];
    }
  }

  // ---------------------------------------------------------------------
  // Splitting the written text at the markers

  /** Splitting at the markers cuts a written entry off at its own
      marker and nowhere inside it. */
  lemma SplitEntry(e: Entry, rest: string, cur: string)
    requires Writable(e)
    ensures SplitFrom(EntryText(e) + rest, CmdMarker, cur) == [cur] + SplitFrom(rest, CmdMarker, Body(e))
  {
    var body := Body(e);
    EntryTextBody(e);
    assert EntryText(e) + rest == CmdMarker + (body + rest);
    SplitAtSep(body + rest, CmdMarker, cur);
    BodyLinesClean(e);
    UnlinesNoMatch(BodyLines(e), rest, CmdMarker);
    SplitSkip(body, rest, CmdMarker, []);
    assert [] + body == body;
  }

  /** Splitting a written history at the markers gives the text before
      the first marker, then one body per entry. */
  lemma {:induction false} SplitHistory(es: seq<Entry>, cur: string)
    requires forall k :: 0 <= k < |es| ==> Writable(es[k])
    ensures SplitFrom(HistoryText(es), CmdMarker, cur) == [cur] + Bodies(es)
    decreases |es|
  {
    if es == [] {
      assert HistoryText(es) == "";
    } else {
      var e := es[0];
      var tail := es[1..];
      var r := HistoryText(tail);
      assert HistoryText(es) == EntryText(e) + r by {
        HistoryTextFront(es);
      }
      assert SplitFrom(EntryText(e) + r, CmdMarker, cur) == [cur] + SplitFrom(r, CmdMarker, Body(e)) by {
        SplitEntry(e, r, cur);
      }
      assert SplitFrom(r, CmdMarker, Body(e)) == [Body(e)] + Bodies(tail) by {
        forall k | 0 <= k < |tail| ensures Writable(tail[k]) {
          assert tail[k] == es[k + 1];
        }
        SplitHistory(tail, Body(e));
      }
      BodiesFront(es);
    }
  }

  /** The pieces of a written history are the bodies of its entries. */
  lemma PiecesOfHistory(es: seq<Entry>)
    requires forall k :: 0 <= k < |es| ==> Writable(es[k])
    ensures Pieces(HistoryText(es)) == Bodies(es)
  {
    SplitHistory(es, []);
  }

  // ---------------------------------------------------------------------
  // Reading one body back

  /** The last written line of a writable entry ends in a non-space
      character. */
  lemma BodyLastChar(e: Entry)
    requires Writable(e)
    ensures var ls := BodyLines(e);
      ls[|ls| - 1] != [] && !IsSpace(ls[|ls| - 1][|ls[|ls| - 1]| - 1])
  {
    var ls := BodyLines(e);
    var w := |WhenLines(e)|;
    BodyLinesShape(e);
    if e.paths.Some? {
      var ps := e.paths.value;
      if |ps| > 0 {
        assert ls[|ls| - 1] == ls[2 + w..][|ps| - 1];
      }
    }
  }

  lemma ConsTail(ls: seq<string>)
    requires ls != []
    ensures [[] + ls[0]] + ls[1..] == ls
  {
    assert [] + ls[0] == ls[0];
  }

  /** Lines that are one line each, with no whitespace at the front of
      the first or the end of the last, survive being written with a line
      feed each and cut into a piece's lines. */
  lemma PieceLinesOfLines(ls: seq<string>)
    requires |ls| > 0 && ls[0] != [] && !IsSpace(ls[0][0])
    requires ls[|ls| - 1] != [] && !IsSpace(ls[|ls| - 1][|ls[|ls| - 1]| - 1])
    requires forall i :: 0 <= i < |ls| ==> '\n' !in ls[i]
    ensures PieceLines(Unlines(ls)) == ls
  {
    UnlinesJoin(ls);
    JoinLinesFirst(ls);
    JoinLinesLast(ls);
    StripNoEdgeSpace(JoinLines(ls));
    SplitJoinLines(ls, []);
    ConsTail(ls);
  }

  /** strip() and split("\n") of a body give back its lines. */
  lemma PieceLinesBody(e: Entry)
    requires Writable(e)
    ensures PieceLines(Body(e)) == BodyLines(e)
  {
    BodyLinesClean(e);
    BodyLastChar(e);
    assert BodyLines(e)[0] == e.cmd;
    PieceLinesOfLines(BodyLines(e));
  }

  /** A written "  when: " line sets the timestamp it was written from. */
  lemma ScanWhenLine(ls: seq<string>, i: nat, e: Entry, t: int)
    requires i < |ls| && ls[i] == WhenPrefix + IntToString(t)
    ensures Scan(ls, i, e) == Scan(ls, i + 1, e.(when := Some(t)))
  {
    assert ls[i][..|WhenPrefix|] == WhenPrefix;
    assert WhenText(ls[i]) == IntToString(t);
    ParseIntToString(t);
  }

  /** A written "  paths:" block at the end of the lines sets the path
      list it was written from. */
  lemma ScanPathsBlock(ls: seq<string>, i: nat, e: Entry, ps: seq<string>)
    requires i < |ls| && ls[i] == PathsPrefix && ls[i + 1..] == PathLines(ps)
    ensures Scan(ls, i, e) == Ok(e.(paths := Some(ps)))
  {
    assert IsPathsLine(ls[i]) && !IsWhenLine(ls[i]);
    forall k | i + 1 <= k < |ls|
      ensures IsPathItem(ls[k])
    {
      assert ls[k] == PathItemPrefix + ps[k - i - 1];
      assert ls[k][..|PathItemPrefix|] == PathItemPrefix;
    }
    var j := PathRunEnd(ls, i + 1);
    assert j == |ls|;
    ScanPathsStep(ls, i, e, j);
    var got := PathItems(ls[i + 1..j]);
    forall k | 0 <= k < |ps|
      ensures got[k] == ps[k]
    {
      assert ls[i + 1..j][k] == PathItemPrefix + ps[k];
      assert (PathItemPrefix + got[k])[|PathItemPrefix|..] == got[k];
      assert (PathItemPrefix + ps[k])[|PathItemPrefix|..] == ps[k];
    }
    assert got == ps;
  }

  /** Where each written line of an entry sits among its body lines. */
  lemma BodyLinesShape(e: Entry)
    ensures var ls := BodyLines(e); var w := |WhenLines(e)|;
      && 1 + w <= |ls| && ls[0] == e.cmd
      && (e.when.Some? ==> ls[1] == WhenPrefix + IntToString(e.when.value))
      && (e.paths.Some? ==> 1 + w < |ls| && ls[1 + w] == PathsPrefix
                            && ls[2 + w..] == PathLines(e.paths.value))
      && (e.paths.None? ==> 1 + w == |ls|)
  {
    var ls := BodyLines(e);
    var w := |WhenLines(e)|;
    ThreeParts(e.cmd, WhenLines(e), PathsBlock(e));
    if e.when.Some? {
      assert ls[1] == ls[1..1 + w][0];
    }
    if e.paths.Some? {
      var block := ls[1 + w..];
      assert block == [PathsPrefix] + PathLines(e.paths.value);
      assert ls[1 + w] == block[0];
      assert ls[2 + w..] == block[1..];
    }
  }

  /** The scan of a body's lines after the command. */
  lemma ScanBody(e: Entry)
    ensures Scan(BodyLines(e), 1, Entry(e.cmd, None, None)) == Ok(e)
  {
    var ls := BodyLines(e);
    var w := |WhenLines(e)|;
    var e1 := Entry(e.cmd, e.when, None);
    BodyLinesShape(e);
    if e.when.Some? {
      ScanWhenLine(ls, 1, Entry(e.cmd, None, None), e.when.value);
    }
    assert Scan(ls, 1, Entry(e.cmd, None, None)) == Scan(ls, 1 + w, e1);
    if e.paths.Some? {
      ScanPathsBlock(ls, 1 + w, e1, e.paths.value);
    }
  }

  /** Each written entry's body parses to that entry. */
  lemma EntryOfBody(e: Entry)
    requires Writable(e)
    ensures EntryOf(Body(e)) == Ok(e)
  {
    PieceLinesBody(e);
    ScanBody(e);
  }

  // ---------------------------------------------------------------------
  // The round trip

  /** MapAll of a function that succeeds everywhere collects its values. */
  lemma EntriesOfAllOk(bodies: seq<string>, es: seq<Entry>)
    requires |bodies| == |es|
    requires forall k :: 0 <= k < |es| ==> EntryOf(bodies[k]) == Ok(es[k])
    ensures EntriesOf(bodies) == Ok(es)
  {
    MapAllResult(EntryOf, bodies);
    assert forall k :: 0 <= k < |bodies| ==> !EntryOf(bodies[k]).Err?;
    var got := MapAll(EntryOf, bodies).value;
    assert forall k :: 0 <= k < |es| ==> got[k] == es[k];
    assert got == es;
  }

  /** The pieces of a written history parse to its entries. */
  lemma EntriesOfHistory(es: seq<Entry>)
    requires forall k :: 0 <= k < |es| ==> Writable(es[k])
    ensures EntriesOf(Pieces(HistoryText(es))) == Ok(es)
  {
    PiecesOfHistory(es);
    var bodies := Bodies(es);
    forall k | 0 <= k < |es|
      ensures EntryOf(bodies[k]) == Ok(es[k])
    {
      EntryOfBody(es[k]);
    }
    EntriesOfAllOk(bodies, es);
  }

  /** Text whose pieces parse to distinct entries holds those entries. */
  lemma ParsedOk(content: string, es: seq<Entry>)
    requires EntriesOf(Pieces(content)) == Ok(es) && DistinctCmds(es)
    ensures Parsed(content) == es
  {
    assert [] + es == es;
    UpsertAllFresh([], es);
  }

  /** Writing a dictionary of writable entries and parsing the text gives
      the same dictionary, entries in the same order. */
  lemma RoundTrip(es: seq<Entry>)
    requires DistinctCmds(es)
    requires forall k :: 0 <= k < |es| ==> Writable(es[k])
    ensures Parsed(HistoryText(es)) == es
  {
    EntriesOfHistory(es);
    ParsedOk(HistoryText(es), es);
  }

  /** The merger's output reads back as the merged dictionary, when every
      merged entry is writable. */
  lemma MergeOutputRereads(localText: string, remoteText: string)
    requires forall k :: 0 <= k < |MergedEntries(localText, remoteText)| ==>
      Writable(MergedEntries(localText, remoteText)[k])
    ensures Parsed(HistoryText(MergedEntries(localText, remoteText)))
         == MergedEntries(localText, remoteText)
  {
    MergedEntriesSpec(localText, remoteText);
    DistinctCmdsPermutation(UpsertAll(Parsed(localText), Parsed(remoteText)), MergedEntries(localText, remoteText));
    RoundTrip(MergedEntries(localText, remoteText));
  }
}
