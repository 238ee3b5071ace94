/** Reading a fish history file's text into entries. The text is cut at
    every occurrence of the entry marker "- cmd: " (anywhere, not only at
    the start of a line) and the piece before the first marker is dropped.
    Each remaining piece is stripped and split into lines: line 0 is the
    command, "  when: " lines set the timestamp, and a "  paths:" line
    starts a fresh path list filled from the "    - " lines right after
    it. Entries are then stored one by one into an empty dictionary. A
    timestamp that int() rejects makes the whole file read as empty. */
module HistoryParse {
  import opened Wrappers
  import opened Text
  import opened Numerals
  import opened HistoryEntries

  const CmdMarker: string := "- cmd: "
  const WhenPrefix: string := "  when: "
  const PathsPrefix: string := "  paths:"
  const PathItemPrefix: string := "    - "

  /** The text after "  when: " that int() rejected. */
  datatype ParseError = BadTimestamp(text: string)

  predicate IsWhenLine(line: string) {
    StartsWith(line, WhenPrefix)
  }

  predicate IsPathsLine(line: string) {
    StartsWith(line, PathsPrefix)
  }

  predicate IsPathItem(line: string) {
    StartsWith(line, PathItemPrefix)
  }

  /** The three kinds of tagged lines differ at their third character. */
  lemma LineKindsDisjoint(line: string)
    ensures IsPathItem(line) ==> !IsWhenLine(line) && !IsPathsLine(line)
    ensures IsPathsLine(line) ==> !IsWhenLine(line)
  {
    if IsPathItem(line) {
      assert line[2] == PathItemPrefix[2];
    }
    if IsPathsLine(line) {
      assert line[2] == PathsPrefix[2];
    }
  }

  /** The timestamp text of a "  when: " line. */
  function WhenText(line: string): string
    requires IsWhenLine(line)
  {
    line[|WhenPrefix|..]
  }

  predicate IsBadWhenLine(line: string) {
    IsWhenLine(line) && ParseInt(WhenText(line)).None?
  }

  /** Where the run of path items that starts at index j ends. */
  function PathRunEnd(lines: seq<string>, j: nat): (r: nat)
    requires j <= |lines|
    ensures j <= r <= |lines|
    ensures forall k :: j <= k < r ==> IsPathItem(lines[k])
    ensures r == |lines| || !IsPathItem(lines[r])
    decreases |lines| - j
  {
    if j < |lines| && IsPathItem(lines[j]) then PathRunEnd(lines, j + 1) else j
  }

  /** A path item line with its "    - " removed. */
  function ItemPath(line: string): (path: string)
    requires IsPathItem(line)
    ensures line == PathItemPrefix + path
  {
    line[|PathItemPrefix|..]
  }

  function PathItems(items: seq<string>): (ps: seq<string>)
    requires forall k :: 0 <= k < |items| ==> IsPathItem(items[k])
    ensures |ps| == |items|
    ensures forall k :: 0 <= k < |items| ==> items[k] == PathItemPrefix + ps[k]
  {
    seq(|items|, k requires 0 <= k < |items| && IsPathItem(items[k]) => ItemPath(items[k]))
  }

  /** The scan of one piece's lines from index i, with the entry built so
      far; a paths line consumes its item run and the scan goes on at the
      first line after it. */
  function Scan(lines: seq<string>, i: nat, e: Entry): Result<Entry, ParseError>
    requires i <= |lines|
    decreases |lines| - i
  {
    if i == |lines| then Ok(e)
    else if IsWhenLine(lines[i]) then
      match ParseInt(WhenText(lines[i]))
      case None => Err(BadTimestamp(WhenText(lines[i])))
      case Some(t) => Scan(lines, i + 1, e.(when := Some(t)))
    else if IsPathsLine(lines[i]) then
      var j := PathRunEnd(lines, i + 1);
      Scan(lines, j, e.(paths := Some(PathItems(lines[i + 1..j]))))
    else Scan(lines, i + 1, e)
  }

  /** The lines of one piece: strip(), then split on line feeds. */
  function PieceLines(piece: string): (lines: seq<string>)
    ensures |lines| > 0
  {
    Split(Strip(piece), "\n")
  }

  /** The entry one piece describes. */
  function EntryOf(piece: string): Result<Entry, ParseError> {
    var lines := PieceLines(piece);
    Scan(lines, 1, Entry(lines[0], None, None))
  }

  /** The entries of a sequence of pieces; the first failure fails all. */
  function EntriesOf(pieces: seq<string>): Result<seq<Entry>, ParseError> {
    MapAll(EntryOf, pieces)
  }

  /** The pieces after the first marker. */
  function Pieces(content: string): seq<string> {
    Split(content, CmdMarker)[1..]
  }

  /** The dictionary a file's text parses to. */
  function Parsed(content: string): seq<Entry> {
    match EntriesOf(Pieces(content))
    case Err(_) => []
    case Ok(es) => UpsertAll([], es)
  }

  // ---------------------------------------------------------------------
  // The parsing loops

  /** The work on one piece: strip it, split it into lines and scan them. */
  method ParseEntry(piece: string) returns (r: Result<Entry, ParseError>)
    ensures r == EntryOf(piece)
  {
    var lines := Split(Strip(piece), "\n");
    r := ScanLines(lines);
  }

  /** The loop over the lines of one piece; line 0 is the command. */
  method ScanLines(lines: seq<string>) returns (r: Result<Entry, ParseError>)
    requires |lines| > 0
    ensures r == Scan(lines, 1, Entry(lines[0], None, None))
  {
    ghost var scanned := Scan(lines, 1, Entry(lines[0], None, None));
    var entry := Entry(lines[0], None, None);
    var i := 1;
    while i < |lines|
      invariant 1 <= i <= |lines|
      invariant Scan(lines, i, entry) == scanned
      decreases |lines| - i
    {
      var line := lines[i];
      if StartsWith(line, WhenPrefix) {
        var t := ParseInt(line[|WhenPrefix|..]);
        if t.None? {
          return Err(BadTimestamp(line[|WhenPrefix|..]));
        }
        entry := entry.(when := t);
      } else if StartsWith(line, PathsPrefix) {
        var paths;
        ghost var at := i;
        paths, i := CollectPaths(lines, i + 1);
        ScanPathsStep(lines, at, entry, i);
        entry := entry.(paths := Some(paths));
        continue;
      }
      i := i + 1;
    }
    return Ok(entry);
  }

  /** The inner loop: the item lines from index start on, up to the first
      line that is not an item, with "    - " removed. */
  method CollectPaths(lines: seq<string>, start: nat) returns (paths: seq<string>, end: nat)
    requires start <= |lines|
    ensures end == PathRunEnd(lines, start)
    ensures paths == PathItems(lines[start..end])
  {
    paths := [];
    end := start;
    while end < |lines| && StartsWith(lines[end], PathItemPrefix)
      invariant start <= end <= |lines|
      invariant forall k :: start <= k < end ==> IsPathItem(lines[k])
      invariant PathRunEnd(lines, end) == PathRunEnd(lines, start)
      invariant paths == PathItems(lines[start..end])
      decreases |lines| - end
    {
      PathItemsSnoc(lines, start, end);
      paths := paths + [lines[end][|PathItemPrefix|..]];
      end := end + 1;
    }
  }

  lemma PathItemsSnoc(lines: seq<string>, start: nat, end: nat)
    requires start <= end < |lines|
    requires forall k :: start <= k <= end ==> IsPathItem(lines[k])
    ensures PathItems(lines[start..end + 1]) == PathItems(lines[start..end]) + [ItemPath(lines[end])]
  {
    var items := lines[start..end];
    assert lines[start..end + 1] == items + [lines[end]];
    var a := PathItems(items + [lines[end]]);
    var b := PathItems(items) + [ItemPath(lines[end])];
    assert |a| == |b|;
    forall k | 0 <= k < |a| ensures a[k] == b[k] {
      if k < |items| {
        assert (items + [lines[end]])[k] == items[k];
      }
    }
  }

  /** At a "  paths:" line the scan jumps over the item run behind it. */
  lemma ScanPathsStep(lines: seq<string>, i: nat, e: Entry, j: nat)
    requires i < |lines| && !IsWhenLine(lines[i]) && IsPathsLine(lines[i])
    requires j == PathRunEnd(lines, i + 1)
    ensures Scan(lines, i, e) == Scan(lines, j, e.(paths := Some(PathItems(lines[i + 1..j]))))
  {
  }

  /** The loop over the pieces, storing each entry unless an entry for the
      same command with a timestamp at least as large is already stored. */
  method ParseFishHistory(content: string) returns (entries: seq<Entry>)
    ensures entries == Parsed(content)
  {
    var pieces := Split(content, CmdMarker)[1..];
    entries := [];
    for n := 0 to |pieces|
      invariant EntriesOf(pieces[..n]).Ok?
      invariant entries == UpsertAll([], EntriesOf(pieces[..n]).value)
    {
      var r := ParseEntry(pieces[n]);
      if r.Err? {
        ParsedFails(content, n);
        return [];
      }
      ParsedStep(pieces, n, r.value);
      entries := Store(entries, r.value);
    }
    assert pieces[..|pieces|] == pieces;
  }

  /** One more piece that parses adds its entry to the dictionary. */
  lemma ParsedStep(pieces: seq<string>, n: nat, e: Entry)
    requires n < |pieces| && EntriesOf(pieces[..n]).Ok? && EntryOf(pieces[n]) == Ok(e)
    ensures EntriesOf(pieces[..n + 1]).Ok?
    ensures UpsertAll([], EntriesOf(pieces[..n + 1]).value) == Upsert(UpsertAll([], EntriesOf(pieces[..n]).value), e)
  {
    var es := EntriesOf(pieces[..n]).value;
    MapAllStep(EntryOf, pieces, n, e);
    assert (es + [e])[..|es|] == es;
  }

  /** A piece that fails empties the whole result. */
  lemma ParsedFails(content: string, k: nat)
    requires k < |Pieces(content)| && EntryOf(Pieces(content)[k]).Err?
    ensures Parsed(content) == []
  {
    MapAllResult(EntryOf, Pieces(content));
  }

  // ---------------------------------------------------------------------
  // Properties of one piece

  /** The scan never touches the command. */
  lemma {:induction false} ScanKeepsCmd(lines: seq<string>, i: nat, e: Entry)
    requires i <= |lines|
    ensures Scan(lines, i, e).Ok? ==> Scan(lines, i, e).value.cmd == e.cmd
    decreases |lines| - i
  {
    if i < |lines| {
      if IsWhenLine(lines[i]) {
        if ParseInt(WhenText(lines[i])).Some? {
          ScanKeepsCmd(lines, i + 1, e.(when := ParseInt(WhenText(lines[i]))));
        }
      } else if IsPathsLine(lines[i]) {
        var j := PathRunEnd(lines, i + 1);
        ScanKeepsCmd(lines, j, e.(paths := Some(PathItems(lines[i + 1..j]))));
      } else {
        ScanKeepsCmd(lines, i + 1, e);
      }
    }
  }

  /** The scan fails exactly when some line from i on is a "  when: " line
      whose remainder int() rejects. */
  lemma {:induction false} ScanFails(lines: seq<string>, i: nat, e: Entry)
    requires i <= |lines|
    ensures Scan(lines, i, e).Err? <==> exists k :: i <= k < |lines| && IsBadWhenLine(lines[k])
    decreases |lines| - i
  {
    if i < |lines| {
      LineKindsDisjoint(lines[i]);
      var line := lines[i];
      if IsWhenLine(line) && ParseInt(WhenText(line)).None? {
        assert IsBadWhenLine(lines[i]);
      } else {
        assert !IsBadWhenLine(lines[i]);
        var j := if IsPathsLine(line) && !IsWhenLine(line) then PathRunEnd(lines, i + 1) else i + 1;
        var e' := if IsWhenLine(line) then e.(when := ParseInt(WhenText(line)))
          else if IsPathsLine(line) then e.(paths := Some(PathItems(lines[i + 1..j])))
          else e;
        assert Scan(lines, i, e) == Scan(lines, j, e');
        ScanFails(lines, j, e');
        forall k | i <= k < j ensures !IsBadWhenLine(lines[k]) {
          LineKindsDisjoint(lines[k]);
        }
      }
    }
  }

  /** Without a "  when: " line from i on, the timestamp is the one the
      scan started with. */
  lemma {:induction false} ScanNoWhen(lines: seq<string>, i: nat, e: Entry)
    requires i <= |lines|
    requires forall k :: i <= k < |lines| ==> !IsWhenLine(lines[k])
    ensures Scan(lines, i, e).Ok? && Scan(lines, i, e).value.when == e.when
    decreases |lines| - i
  {
    if i < |lines| {
      if IsPathsLine(lines[i]) {
        var j := PathRunEnd(lines, i + 1);
        ScanNoWhen(lines, j, e.(paths := Some(PathItems(lines[i + 1..j]))));
      } else {
        ScanNoWhen(lines, i + 1, e);
      }
    }
  }

  /** The last "  when: " line from i on sets the timestamp. */
  lemma {:induction false} ScanLastWhen(lines: seq<string>, i: nat, e: Entry, k: nat)
    requires i <= k < |lines| && IsWhenLine(lines[k])
    requires forall m :: k < m < |lines| ==> !IsWhenLine(lines[m])
    requires Scan(lines, i, e).Ok?
    ensures Scan(lines, i, e).value.when == ParseInt(WhenText(lines[k]))
    decreases |lines| - i
  {
    LineKindsDisjoint(lines[i]);
    if i == k {
      var t := ParseInt(WhenText(lines[i]));
      ScanNoWhen(lines, i + 1, e.(when := t));
    } else if IsWhenLine(lines[i]) {
      ScanLastWhen(lines, i + 1, e.(when := ParseInt(WhenText(lines[i]))), k);
    } else if IsPathsLine(lines[i]) {
      var j := PathRunEnd(lines, i + 1);
      LineKindsDisjoint(lines[k]);
      assert j <= k;
      ScanLastWhen(lines, j, e.(paths := Some(PathItems(lines[i + 1..j]))), k);
    } else {
      ScanLastWhen(lines, i + 1, e, k);
    }
  }

  /** Without a "  paths:" line from i on, the paths are those the scan
      started with. */
  lemma {:induction false} ScanNoPaths(lines: seq<string>, i: nat, e: Entry)
    requires i <= |lines|
    requires forall k :: i <= k < |lines| ==> !IsPathsLine(lines[k])
    requires Scan(lines, i, e).Ok?
    ensures Scan(lines, i, e).value.paths == e.paths
    decreases |lines| - i
  {
    if i < |lines| {
      if IsWhenLine(lines[i]) {
        ScanNoPaths(lines, i + 1, e.(when := ParseInt(WhenText(lines[i]))));
      } else {
        ScanNoPaths(lines, i + 1, e);
      }
    }
  }

  /** The paths come from the last "  paths:" line from i on: the item
      lines right after it, in order, with "    - " removed, up to the
      first line that is not an item. */
  lemma {:induction false} ScanLastPaths(lines: seq<string>, i: nat, e: Entry, k: nat)
    requires i <= k < |lines| && IsPathsLine(lines[k])
    requires forall m :: k < m < |lines| ==> !IsPathsLine(lines[m])
    requires Scan(lines, i, e).Ok?
    ensures Scan(lines, i, e).value.paths == Some(PathItems(lines[k + 1..PathRunEnd(lines, k + 1)]))
    decreases |lines| - i
  {
    LineKindsDisjoint(lines[i]);
    if i == k {
      var j := PathRunEnd(lines, i + 1);
      ScanNoPaths(lines, j, e.(paths := Some(PathItems(lines[i + 1..j]))));
    } else if IsWhenLine(lines[i]) {
      ScanLastPaths(lines, i + 1, e.(when := ParseInt(WhenText(lines[i]))), k);
    } else if IsPathsLine(lines[i]) {
      var j := PathRunEnd(lines, i + 1);
      LineKindsDisjoint(lines[k]);
      assert j <= k;
      ScanLastPaths(lines, j, e.(paths := Some(PathItems(lines[i + 1..j]))), k);
    } else {
      ScanLastPaths(lines, i + 1, e, k);
    }
  }

  // ---------------------------------------------------------------------
  // Properties of a whole file

  /** Text without the marker, the empty text included, holds no entries. */
  lemma ParsedWithoutMarker(content: string)
    requires !Contains(content, CmdMarker)
    ensures Parsed(content) == []
  {
    SplitWithout(content, CmdMarker);
  }

  /** One "  when: " line that int() rejects, in any piece, empties the
      whole result. */
  lemma ParsedBadTimestamp(content: string, k: nat, m: nat)
    requires k < |Pieces(content)|
    requires 1 <= m < |PieceLines(Pieces(content)[k])|
    requires IsBadWhenLine(PieceLines(Pieces(content)[k])[m])
    ensures Parsed(content) == []
  {
    var piece := Pieces(content)[k];
    var lines := PieceLines(piece);
    ScanFails(lines, 1, Entry(lines[0], None, None));
    ParsedFails(content, k);
  }

  /** Each parsed entry's command is line 0 of its piece. */
  lemma EntryOfCmd(piece: string)
    requires EntryOf(piece).Ok?
    ensures EntryOf(piece).value.cmd == PieceLines(piece)[0]
  {
    var lines := PieceLines(piece);
    ScanKeepsCmd(lines, 1, Entry(lines[0], None, None));
  }

  /** A parsed file never holds two entries for one command; every
      successful parse is the deduplication of its pieces' entries. */
  lemma ParsedDistinct(content: string)
    ensures DistinctCmds(Parsed(content))
    ensures EntriesOf(Pieces(content)).Ok? ==>
      Parsed(content) == UpsertAll([], EntriesOf(Pieces(content)).value)
  {
    match EntriesOf(Pieces(content))
    case Err(_) =>
      assert Cmds([]) == [];
    case Ok(es) =>
      DedupOrder(es);
  }
}
