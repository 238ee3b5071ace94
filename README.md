# Fish history merge and tool-config rendering, verified in Dafny

This project models two small text tools. Each is modelled on its code:
the model's loops are proved to compute declarative definitions, and those
definitions are proved to have the properties listed below.

**Fish history merge.** `executable_fish-history-merge.py` does three things:

- It reads two fish shell history files.
- It merges them, keeping the newest entry for each command.
- It writes out the result sorted by timestamp.

The model works on in-memory text.

- `HistoryParse.ParseFishHistory` is the parser:
  - it splits the text at every `- cmd: `;
  - it runs `strip()` and then `split("\n")` on each piece;
  - it scans the `  when: ` lines and the `  paths:` / `    - ` lines with the same index-advancing loops as the source.
- `HistoryEntries.Store` is the dictionary store. An entry with a new command is appended. An entry for an existing command replaces the stored one, in place, only when it is strictly newer.
- `HistoryMerge.MergeEntries` is the remote-into-local fold.
- `HistoryMerge.SortByTimestamp` is Python's stable `sorted`.
- `HistoryMerge.WriteHistory` is the writer.

A Python dict keeps insertion order. It is modelled as a sequence of entries with distinct commands.

**Tool-config rendering.** `render_tool_config.py` filters configuration files when work mode is off:

- in a Codex TOML file, it drops the sections marked `# __isWork__`;
- in an OpenCode JSONC file, it removes the entries of the `mcp` object that are marked `// __isWork__`.

The model covers these parts:

- **The command-line boolean parser.** `ToolRender.ParseBool`.
- **The Codex section filter.** `CodexRender.RenderCodex`: the section split, then the output loop.
- **The JSONC comment stripper.** `JsoncClean.StripJsoncComments`. It is a character state machine that is aware of strings.
- **The trailing comma remover.** `JsoncClean.RemoveTrailingCommas`.
- **The marker-key scan.** `OpencodeRender.ScanWorkOnlyKeys`.
- **The `mcp` filter.** `OpencodeRender.FilterMcp`.
- **The tool dispatch.** `ToolRender.Render`.
- **`splitlines(True)`.** `RenderLines.LinesKeepEnds`. It uses every line boundary Python recognises.

**How the model is built.**

- **Loops.** Every loop of the source is a Dafny `method` with loop invariants. Each method is proved equal to a declarative function, and the properties the code promises are lemmas about that function.
- **Loop bodies.** Some loop bodies are separate methods, which keeps each proof small. These are the inner path loop, one entry's output lines, the inner section loop, the del loop, one marker line, the comment skips and one string character.
- **Empty path lists.** The writer emits `  paths:` whenever an entry has a path list, even an empty one (executable_fish-history-merge.py:115-116).

## Model

| member | source | states |
|---|---|---|
| HistoryEntries.Lookup | home/exact_bin/utils/exact_history/executable_fish-history-merge.py:53-56 | a command is found exactly when it is a key, and what is found is an entry stored under that command |
| HistoryEntries.Store | home/exact_bin/utils/exact_history/executable_fish-history-merge.py:53-63 | the dictionary store: a new command is appended; an existing one is replaced in place only by a strictly newer entry (Upsert) |
| HistoryEntries.Missing | home/exact_bin/utils/exact_history/executable_fish-history-merge.py:82-85 | holds exactly the keys of one side that the other side lacks |
| HistoryEntries.AddNewElements | home/exact_bin/utils/exact_history/executable_fish-history-merge.py:53-54 | adding keys gives the union, keeps the old keys as a prefix, and keeps the keys distinct |
| HistoryEntries.AddNewFirstOccurrence | home/exact_bin/utils/exact_history/executable_fish-history-merge.py:53-54 | keys come out in the order of their first occurrence |
| HistoryEntries.AddNewFresh | home/exact_bin/utils/exact_history/executable_fish-history-merge.py:82-85 | keys that are all new are appended as they are |
| HistoryEntries.AddNewMissing | home/exact_bin/utils/exact_history/executable_fish-history-merge.py:82-85 | the keys of a distinct sequence that are new are appended in that sequence's order |
| HistoryEntries.UpsertCmds | home/exact_bin/utils/exact_history/executable_fish-history-merge.py:53-63 | a store keeps the key order and appends a new key at the end, so replacement keeps a key's position |
| HistoryEntries.UpsertAllCmds | home/exact_bin/utils/exact_history/executable_fish-history-merge.py:82-99 | the keys after a fold of stores are the old keys, then each new key at its first store |
| HistoryEntries.LookupUpsert | home/exact_bin/utils/exact_history/executable_fish-history-merge.py:53-63 | a store changes only the lookup of its own command, which becomes the newer of old and new (the old one on ties) |
| HistoryEntries.UpsertAllFresh | home/exact_bin/utils/exact_history/executable_fish-history-merge.py:82-85 | storing entries whose commands are all new appends them |
| HistoryEntries.DistinctCmdsPermutation | home/exact_bin/utils/exact_history/executable_fish-history-merge.py:109-111 | reordering a dictionary's entries keeps its commands distinct |
| HistoryEntries.MergeLookup | home/exact_bin/utils/exact_history/executable_fish-history-merge.py:82-99 | for every command, the merged entry is the remote one only when it is strictly newer, and the entry of the side that has it otherwise |
| HistoryEntries.MergeCmds | home/exact_bin/utils/exact_history/executable_fish-history-merge.py:79-99 | merged keys are the local keys in local order, then the remote keys new to local in remote order; they are distinct and form the union |
| HistoryEntries.DedupLookup | home/exact_bin/utils/exact_history/executable_fish-history-merge.py:47-63 | exactly the commands of the file survive, each with an entry of maximal timestamp that is the earliest among those with that timestamp |
| HistoryEntries.DedupStep | home/exact_bin/utils/exact_history/executable_fish-history-merge.py:53-63 | one store on top of a deduplicated prefix keeps the winner property for every command |
| HistoryEntries.WinnerKept | home/exact_bin/utils/exact_history/executable_fish-history-merge.py:62-63 | an entry that is not strictly newer does not displace the winner |
| HistoryEntries.WinnerNew | home/exact_bin/utils/exact_history/executable_fish-history-merge.py:62-63 | an entry strictly newer than every entry of its command becomes the winner |
| HistoryEntries.DedupOrder | home/exact_bin/utils/exact_history/executable_fish-history-merge.py:53-54 | the surviving commands are distinct, are those of the file, and appear in first-occurrence order |
| HistoryParse.LineKindsDisjoint | home/exact_bin/utils/exact_history/executable_fish-history-merge.py:35-41 | a line is at most one of when line, paths line and path item, so the order of the tests does not matter |
| HistoryParse.PathRunEnd | home/exact_bin/utils/exact_history/executable_fish-history-merge.py:41-43 | the run of item lines ends at the first line that is not an item, or at the end |
| HistoryParse.ItemPath | home/exact_bin/utils/exact_history/executable_fish-history-merge.py:42 | the path is the item line with its `    - ` prefix removed |
| HistoryParse.PathItems | home/exact_bin/utils/exact_history/executable_fish-history-merge.py:41-43 | one path per item line, in order, each with the prefix removed |
| HistoryParse.PieceLines | home/exact_bin/utils/exact_history/executable_fish-history-merge.py:24-26 | strip() and split("\n") always give at least one line, so the `if not lines` branch never runs |
| HistoryParse.ParseEntry | home/exact_bin/utils/exact_history/executable_fish-history-merge.py:24-45 | one piece gives the entry of its lines, with line 0 as the command |
| HistoryParse.ScanLines | home/exact_bin/utils/exact_history/executable_fish-history-merge.py:32-45 | the index-advancing loop computes the declarative scan, including its failure on a bad timestamp |
| HistoryParse.CollectPaths | home/exact_bin/utils/exact_history/executable_fish-history-merge.py:41-43 | the inner loop stops at the first non-item line and returns the item paths in order |
| HistoryParse.PathItemsSnoc | home/exact_bin/utils/exact_history/executable_fish-history-merge.py:42 | one more item line appends one more path |
| HistoryParse.ScanPathsStep | home/exact_bin/utils/exact_history/executable_fish-history-merge.py:37-44 | a paths line replaces the path list with the run behind it, and scanning resumes at the line that ends the run |
| HistoryParse.ParseFishHistory | home/exact_bin/utils/exact_history/executable_fish-history-merge.py:11-69 | the loop over the pieces gives the parsed dictionary, or the empty one when any piece fails |
| HistoryParse.ParsedStep | home/exact_bin/utils/exact_history/executable_fish-history-merge.py:47-63 | each parsed piece is stored on top of the dictionary so far |
| HistoryParse.ParsedFails | home/exact_bin/utils/exact_history/executable_fish-history-merge.py:65-67 | one failing piece makes the whole result empty |
| HistoryParse.ScanKeepsCmd | home/exact_bin/utils/exact_history/executable_fish-history-merge.py:29-30 | the scan never changes the command |
| HistoryParse.ScanFails | home/exact_bin/utils/exact_history/executable_fish-history-merge.py:35-36 | the scan fails exactly when some later when line does not hold an integer |
| HistoryParse.ScanNoWhen | home/exact_bin/utils/exact_history/executable_fish-history-merge.py:35-36 | without when lines the scan succeeds and adds no timestamp |
| HistoryParse.ScanLastWhen | home/exact_bin/utils/exact_history/executable_fish-history-merge.py:35-36 | the last when line sets the timestamp |
| HistoryParse.ScanNoPaths | home/exact_bin/utils/exact_history/executable_fish-history-merge.py:37-44 | without a paths line the path list is unchanged |
| HistoryParse.ScanLastPaths | home/exact_bin/utils/exact_history/executable_fish-history-merge.py:37-44 | the last paths line resets the list to the item run that follows it |
| HistoryParse.ParsedWithoutMarker | home/exact_bin/utils/exact_history/executable_fish-history-merge.py:21-23 | text without `- cmd: `, the empty text included, parses to the empty dictionary |
| HistoryParse.ParsedBadTimestamp | home/exact_bin/utils/exact_history/executable_fish-history-merge.py:35-67 | a when line without an integer anywhere makes the whole result empty |
| HistoryParse.EntryOfCmd | home/exact_bin/utils/exact_history/executable_fish-history-merge.py:29 | the command of a parsed piece is its first line |
| HistoryParse.ParsedDistinct | home/exact_bin/utils/exact_history/executable_fish-history-merge.py:47-63 | the parsed dictionary has distinct commands and is the fold of stores over the piece entries |
| HistoryMerge.MergeEntries | home/exact_bin/utils/exact_history/executable_fish-history-merge.py:79-99 | the loop over remote entries is the fold of stores into a copy of local |
| HistoryMerge.InsertMultiset | home/exact_bin/utils/exact_history/executable_fish-history-merge.py:109-111 | insertion adds exactly the inserted entry |
| HistoryMerge.InsertSorted | home/exact_bin/utils/exact_history/executable_fish-history-merge.py:109-111 | insertion keeps the sequence sorted by timestamp |
| HistoryMerge.InsertStable | home/exact_bin/utils/exact_history/executable_fish-history-merge.py:109-111 | insertion puts an entry behind every entry with the same timestamp |
| HistoryMerge.SortByTimestampSpec | home/exact_bin/utils/exact_history/executable_fish-history-merge.py:104-111 | the sort is ordered by timestamp, is a permutation, and keeps the input order among equal timestamps |
| HistoryMerge.SortByTimestampSorted | home/exact_bin/utils/exact_history/executable_fish-history-merge.py:109-111 | the sort output is in non-decreasing timestamp order |
| HistoryMerge.SortByTimestampPermutes | home/exact_bin/utils/exact_history/executable_fish-history-merge.py:109-111 | the sort output is a permutation of its input |
| HistoryMerge.SortByTimestampStable | home/exact_bin/utils/exact_history/executable_fish-history-merge.py:109-111 | for each timestamp, the sort keeps the input order of its entries |
| HistoryMerge.WriteHistory | home/exact_bin/utils/exact_history/executable_fish-history-merge.py:109-118 | the writing loop produces the concatenated texts of the entries, in order |
| HistoryMerge.WriteEntry | home/exact_bin/utils/exact_history/executable_fish-history-merge.py:112-118 | one entry appends exactly its lines |
| HistoryMerge.EntryTextSplit | home/exact_bin/utils/exact_history/executable_fish-history-merge.py:112-118 | an entry's text is its head lines followed by one item line per path |
| HistoryMerge.WriteHead | home/exact_bin/utils/exact_history/executable_fish-history-merge.py:112-116 | the marker line, then the when line if there is a timestamp, then the paths line if there is a path list, even an empty one |
| HistoryMerge.HeadText | home/exact_bin/utils/exact_history/executable_fish-history-merge.py:112-116 | the head text is the marker line, then the when line if present, then the paths line if present, each ended by a line feed |
| HistoryMerge.WritePaths | home/exact_bin/utils/exact_history/executable_fish-history-merge.py:117-118 | one `    - ` line per path, in order |
| HistoryMerge.MergeHistories | home/exact_bin/utils/exact_history/executable_fish-history-merge.py:72-118 | the output is the text of the merged entries sorted by timestamp |
| HistoryMerge.MergeEmpty | home/exact_bin/utils/exact_history/executable_fish-history-merge.py:72-118 | two empty histories merge to empty text |
| HistoryMerge.MergedEntriesSpec | home/exact_bin/utils/exact_history/executable_fish-history-merge.py:79-111 | the output: sorted by timestamp; a permutation of the merged dictionary and stable; local keys then new remote keys; the union; remote wins only when strictly newer |
| HistoryRoundTrip.EntryTextBody | home/exact_bin/utils/exact_history/executable_fish-history-merge.py:112 | a written entry is the marker followed by what the parser sees as its piece |
| HistoryRoundTrip.HistoryTextFront | home/exact_bin/utils/exact_history/executable_fish-history-merge.py:109-118 | the history text is the first entry's text followed by the rest |
| HistoryRoundTrip.WhenLineClean | home/exact_bin/utils/exact_history/executable_fish-history-merge.py:114 | a when line holds neither a line feed nor the marker |
| HistoryRoundTrip.PathsLineClean | home/exact_bin/utils/exact_history/executable_fish-history-merge.py:116 | the paths line holds neither a line feed nor the marker |
| HistoryRoundTrip.ItemLineClean | home/exact_bin/utils/exact_history/executable_fish-history-merge.py:118 | an item line of a writable path holds neither a line feed nor the marker |
| HistoryRoundTrip.BodyLinesClean | home/exact_bin/utils/exact_history/executable_fish-history-merge.py:112-118 | no written line of a writable entry holds a line feed or the marker |
| HistoryRoundTrip.BodyLineClean | home/exact_bin/utils/exact_history/executable_fish-history-merge.py:112-118 | the same for one line |
| HistoryRoundTrip.BodyLine | home/exact_bin/utils/exact_history/executable_fish-history-merge.py:112-118 | line i of a written body is the command, the when line, the paths line or one item line, by position |
| HistoryRoundTrip.BodyLinesShape | home/exact_bin/utils/exact_history/executable_fish-history-merge.py:112-118 | the written lines are the command, the optional when line, then the optional paths line and its items |
| HistoryRoundTrip.SplitEntry | home/exact_bin/utils/exact_history/executable_fish-history-merge.py:21 | splitting at the markers cuts a written entry at its own marker and nowhere inside it |
| HistoryRoundTrip.SplitHistory | home/exact_bin/utils/exact_history/executable_fish-history-merge.py:21-23 | splitting a written history gives the text before the first marker, then one body per entry |
| HistoryRoundTrip.PiecesOfHistory | home/exact_bin/utils/exact_history/executable_fish-history-merge.py:21-23 | the pieces of a written history are the bodies of its entries |
| HistoryRoundTrip.BodyLastChar | home/exact_bin/utils/exact_history/executable_fish-history-merge.py:24 | the last written line of a writable entry ends in a non-space character, so strip() does not shorten it |
| HistoryRoundTrip.PieceLinesOfLines | home/exact_bin/utils/exact_history/executable_fish-history-merge.py:24 | lines without line feeds, each written with a line feed, come back from strip() and split("\n") when the first starts and the last ends with a non-space |
| HistoryRoundTrip.PieceLinesBody | home/exact_bin/utils/exact_history/executable_fish-history-merge.py:24 | strip() and split("\n") of a body give back its lines |
| HistoryRoundTrip.ScanWhenLine | home/exact_bin/utils/exact_history/executable_fish-history-merge.py:35-36 | a written when line reads back as its timestamp |
| HistoryRoundTrip.ScanPathsBlock | home/exact_bin/utils/exact_history/executable_fish-history-merge.py:37-44 | a written paths block reads back as its path list |
| HistoryRoundTrip.ScanBody | home/exact_bin/utils/exact_history/executable_fish-history-merge.py:32-45 | scanning a body's lines rebuilds the entry |
| HistoryRoundTrip.EntryOfBody | home/exact_bin/utils/exact_history/executable_fish-history-merge.py:24-45 | a writable entry's body parses back to the entry |
| HistoryRoundTrip.EntriesOfAllOk | home/exact_bin/utils/exact_history/executable_fish-history-merge.py:23-45 | when every piece parses, the piece entries are those parses |
| HistoryRoundTrip.EntriesOfHistory | home/exact_bin/utils/exact_history/executable_fish-history-merge.py:21-45 | the pieces of a written history parse to its entries, in order |
| HistoryRoundTrip.ParsedOk | home/exact_bin/utils/exact_history/executable_fish-history-merge.py:47-63 | pieces with distinct commands are stored as they are |
| HistoryRoundTrip.RoundTrip | home/exact_bin/utils/exact_history/executable_fish-history-merge.py:21-118 | writing writable entries with distinct commands, then parsing, gives back the same entries in the same order |
| HistoryRoundTrip.MergeOutputRereads | home/exact_bin/utils/exact_history/executable_fish-history-merge.py:72-118 | re-parsing the merge output gives the merged, sorted entries when they are writable |
| Numerals.NatToString | home/exact_bin/utils/exact_history/executable_fish-history-merge.py:114 | str(n) for n >= 0 is all digits, one digit exactly below 10 |
| Numerals.IntToString | home/exact_bin/utils/exact_history/executable_fish-history-merge.py:114 | str(n) is digits with a leading minus exactly for negative n |
| Numerals.NatToStringValue | home/exact_bin/utils/exact_history/executable_fish-history-merge.py:114 | str(n) is a numeral whose value is n |
| Numerals.ParseIntToString | home/exact_bin/utils/exact_history/executable_fish-history-merge.py:36 | int(str(n)) == n for every integer n |
| Numerals.ParseSignedNegative | home/exact_bin/utils/exact_history/executable_fish-history-merge.py:36 | a minus sign and the digits of m read as -m |
| Numerals.ParseSignedNat | home/exact_bin/utils/exact_history/executable_fish-history-merge.py:36 | the digits of n read as n |
| Numerals.ParseIntNoEdgeSpace | home/exact_bin/utils/exact_history/executable_fish-history-merge.py:36 | int() of text without edge whitespace reads the text as it is |
| Text.LStripSpec | scripts/render_tool_config.py:153 | lstrip() removes exactly the leading whitespace |
| Text.RStripSpec | home/exact_bin/utils/exact_history/executable_fish-history-merge.py:24 | the right half of strip() removes exactly the trailing whitespace |
| Text.StripNoEdgeSpace | home/exact_bin/utils/exact_history/executable_fish-history-merge.py:24 | strip() leaves text without edge whitespace alone, and removes only a final line feed after it |
| Text.SplitFrom | home/exact_bin/utils/exact_history/executable_fish-history-merge.py:21 | str.split always gives at least one part |
| Text.SplitSkip | home/exact_bin/utils/exact_history/executable_fish-history-merge.py:21 | text holding no separator is copied into the current part |
| Text.SplitAtSep | home/exact_bin/utils/exact_history/executable_fish-history-merge.py:21 | a separator closes the current part |
| Text.SplitWithout | home/exact_bin/utils/exact_history/executable_fish-history-merge.py:21 | text without the separator splits into itself alone |
| Text.SplitJoinLines | home/exact_bin/utils/exact_history/executable_fish-history-merge.py:24 | split("\n") undoes "\n".join of lines without line feeds |
| Text.IndexOf | home/exact_bin/utils/exact_history/executable_fish-history-merge.py:53 | finds nothing exactly when the element is absent, and otherwise finds its first occurrence |
| Text.LStripSpaces | scripts/render_tool_config.py:14 | leading whitespace does not change lstrip() |
| Text.RStripSpaces | scripts/render_tool_config.py:14 | trailing whitespace does not change rstrip() |
| Text.StripPadded | scripts/render_tool_config.py:14 | whitespace around a text does not change strip() |
| Text.LStripUpper | scripts/render_tool_config.py:14 | lstrip() commutes with upper-casing |
| Text.RStripUpper | scripts/render_tool_config.py:14 | rstrip() commutes with upper-casing |
| Text.LowerUpper | scripts/render_tool_config.py:14 | lower() of upper() is lower() |
| Wrappers.MapAllResult | home/exact_bin/utils/exact_history/executable_fish-history-merge.py:23-67 | mapping over pieces fails exactly when one piece fails, and otherwise gives each piece's result in order |
| RenderLines.LinesKeepEndsSpec | scripts/render_tool_config.py:23 | splitlines(True) lines join back to the text, and only the end of each line is a line boundary (a `\r\n` pair counts as one) |
| RenderLines.LinesFromFlatten | scripts/render_tool_config.py:23 | the lines produced join back to the text |
| RenderLines.LinesFromAreLines | scripts/render_tool_config.py:23 | each produced line except the last ends at a boundary and holds none inside |
| CodexRender.Sections | scripts/render_tool_config.py:34-42 | there is always at least one section (the preamble) |
| CodexRender.SectionsFlatten | scripts/render_tool_config.py:34-42 | the sections joined are the lines |
| CodexRender.SectionsShape | scripts/render_tool_config.py:34-42 | the preamble holds no header; every later section starts with its header and holds no other |
| CodexRender.SplitSections | scripts/render_tool_config.py:34-42 | the section loop computes the sections |
| CodexRender.RenderCodex | scripts/render_tool_config.py:22-57 | the output loop computes the declarative output lines, joined |
| CodexRender.EmitSection | scripts/render_tool_config.py:53-56 | a kept section contributes its lines without the marker lines |
| CodexRender.WithoutMarkersClean | scripts/render_tool_config.py:53-56 | no marker line is left |
| CodexRender.WithoutMarkersNone | scripts/render_tool_config.py:53-56 | lines without markers are unchanged |
| CodexRender.EmitWork | scripts/render_tool_config.py:47-56 | in work mode the output is all lines without the marker lines |
| CodexRender.CodexWork | scripts/render_tool_config.py:44-57 | in work mode the output is the input lines in order with exactly the marker lines removed |
| CodexRender.EmitPersonal | scripts/render_tool_config.py:47-56 | outside work mode the output is the sections without a marker, joined |
| CodexRender.CodexPersonal | scripts/render_tool_config.py:47-56 | outside work mode every section with a marker, the preamble included, is dropped, and the others are kept unchanged and in order |
| CodexRender.EmitClean | scripts/render_tool_config.py:50-56 | no emitted line is a marker line |
| CodexRender.CodexNoMarkers | scripts/render_tool_config.py:50-56 | the output never holds a marker line |
| CodexRender.EmitUnmarked | scripts/render_tool_config.py:47-56 | sections without markers are emitted unchanged |
| CodexRender.CodexUnmarked | scripts/render_tool_config.py:47-57 | input without marker lines is returned unchanged in either mode |
| CodexRender.CodexIdempotent | scripts/render_tool_config.py:47-57 | rendering the output again with the same flag changes nothing |
| CodexRender.WithoutMarkersPick | scripts/render_tool_config.py:53-56 | removing markers picks a subsequence |
| CodexRender.EmitPick | scripts/render_tool_config.py:47-56 | the output lines are picked from the input lines by a mask |
| CodexRender.CodexSubseq | scripts/render_tool_config.py:47-57 | the output is a subsequence of the input lines |
| JsoncClean.StringChar | scripts/render_tool_config.py:68-77 | one character inside a string: a backslash sets the escape flag, an unescaped quote ends the string, and the flag is off outside strings |
| JsoncClean.CommentStep | scripts/render_tool_config.py:66-100 | the flags of the loop agree with the per-character mode, which moves by one step per character |
| JsoncClean.LineCommentStep | scripts/render_tool_config.py:89-90 | inside a line comment, a character that is not a line break is dropped |
| JsoncClean.BlockCommentStep | scripts/render_tool_config.py:94-95 | inside a block comment, a character that does not start `*/` is dropped |
| JsoncClean.BlockCommentClose | scripts/render_tool_config.py:94-96 | `*/` closes a block comment and is dropped |
| JsoncClean.CommentOpen | scripts/render_tool_config.py:85-97 | `//` or `/*` outside strings opens a comment and is dropped |
| JsoncClean.StripJsoncComments | scripts/render_tool_config.py:60-101 | the index-jumping loop computes the per-character comment stripping |
| JsoncClean.SkipLineComment | scripts/render_tool_config.py:87-91 | skipping a line comment stops at the next `\n` or `\r`, or at the end, and drops what it passes |
| JsoncClean.SkipBlockComment | scripts/render_tool_config.py:92-97 | skipping a block comment passes its closing `*/`, or runs past the end, and drops what it passes |
| JsoncClean.BlockCommentEnd | scripts/render_tool_config.py:94-97 | the final `i += 2` leaves code, or the end of the text |
| JsoncClean.StripPrefixPick | scripts/render_tool_config.py:60-101 | the output is the input picked by a keep mask |
| JsoncClean.StripCommentsSubseq | scripts/render_tool_config.py:60-101 | the output is a subsequence of the input |
| JsoncClean.StringsKept | scripts/render_tool_config.py:68-83 | every character of a string, its quotes included, is copied |
| JsoncClean.EscapedQuote | scripts/render_tool_config.py:70-73 | a backslash inside a string escapes the next character, so an escaped quote does not end the string |
| JsoncClean.LineCommentRemoved | scripts/render_tool_config.py:87-91 | a `//` comment is removed up to the next `\n` or `\r`, which is kept |
| JsoncClean.UnterminatedBlockRemoved | scripts/render_tool_config.py:92-97 | an unterminated block comment stays a comment to the end |
| JsoncClean.UnterminatedBlockOutput | scripts/render_tool_config.py:92-97 | an unterminated `/*` removes the rest of the text |
| JsoncClean.LoneSlashKept | scripts/render_tool_config.py:85-100 | a slash not followed by `/` or `*` is kept |
| JsoncClean.NoSlashPrefix | scripts/render_tool_config.py:60-101 | without slashes every prefix is copied |
| JsoncClean.NoSlashUnchanged | scripts/render_tool_config.py:60-101 | text without slashes is unchanged |
| JsoncClean.StringModeAt | scripts/render_tool_config.py:110-127 | before each character the comma pass is either in code or in a string |
| JsoncClean.NextNonSpace | scripts/render_tool_config.py:130-132 | the scan after a comma stops at the first non-whitespace character |
| JsoncClean.SkipSpace | scripts/render_tool_config.py:130-132 | the whitespace loop computes that position |
| JsoncClean.CommaStep | scripts/render_tool_config.py:110-138 | one step of the comma loop: the string flags move as in the state machine, and a comma is dropped exactly when it is in code and its next non-whitespace character is a closer |
| JsoncClean.RemoveTrailingCommas | scripts/render_tool_config.py:104-139 | the loop computes the per-character comma removal |
| JsoncClean.TrailingCommaIff | scripts/render_tool_config.py:129-135 | a comma is removed exactly when it is outside strings and only whitespace separates it from a following `}` or `]` |
| JsoncClean.FinalCommaKept | scripts/render_tool_config.py:129-137 | a comma at the end of the text is kept |
| JsoncClean.NoCommaPrefix | scripts/render_tool_config.py:104-139 | without commas every prefix is copied |
| JsoncClean.NoCommaUnchanged | scripts/render_tool_config.py:104-139 | text without commas is unchanged |
| JsoncClean.CommaPrefixPick | scripts/render_tool_config.py:104-139 | the output is the input with exactly the trailing commas left out |
| JsoncClean.RemoveCommasSubseq | scripts/render_tool_config.py:104-139 | the output is a subsequence of the input |
| OpencodeRender.Keys | scripts/render_tool_config.py:166 | the keys of an object, in order |
| OpencodeRender.Get | scripts/render_tool_config.py:165 | dict.get returns nothing exactly when the key is absent |
| OpencodeRender.WithoutKeysTwice | scripts/render_tool_config.py:166-168 | deleting one key set and then another deletes their union |
| OpencodeRender.WithoutKeysSame | scripts/render_tool_config.py:166-168 | only the keys present matter for deletion, so collected keys absent from the object change nothing |
| OpencodeRender.WithoutKeysMembers | scripts/render_tool_config.py:166-168 | exactly the members with uncollected keys remain, in their order |
| OpencodeRender.GetWithoutKeys | scripts/render_tool_config.py:166-168 | a deleted key is gone, and every other key finds what it found before |
| OpencodeRender.GetWithoutKeysStep | scripts/render_tool_config.py:166-168 | the same, carried over one more member |
| OpencodeRender.WithoutKeysIdempotent | scripts/render_tool_config.py:166-168 | deleting twice is deleting once |
| OpencodeRender.PutSpec | scripts/render_tool_config.py:169 | after d[key] = v, the key finds v, other keys are unchanged, and the key order is kept, with a new key placed last |
| OpencodeRender.PutGet | scripts/render_tool_config.py:169 | after d[key] = v the key finds v |
| OpencodeRender.PutKeys | scripts/render_tool_config.py:169 | d[key] = v keeps the key order, and a new key goes last |
| OpencodeRender.PutGetOther | scripts/render_tool_config.py:169 | d[key] = v leaves every other key's value |
| OpencodeRender.PutTwice | scripts/render_tool_config.py:169 | assigning the same value twice is assigning once |
| OpencodeRender.KeyOf | scripts/render_tool_config.py:148 | a captured key is non-empty and has no quote |
| OpencodeRender.KeyOfShape | scripts/render_tool_config.py:148 | a captured key sits between quotes after leading whitespace, and a colon follows after whitespace |
| OpencodeRender.KeyOfSome | scripts/render_tool_config.py:148 | a line that opens key k is whitespace, `"k"`, whitespace, a colon and the rest |
| OpencodeRender.KeyOfPieces | scripts/render_tool_config.py:148 | every such line opens key k |
| OpencodeRender.KeyOfIff | scripts/render_tool_config.py:148 | a line opens key k exactly when k is non-empty, has no quote, and the line is whitespace, `"k"`, whitespace, a colon and the rest |
| OpencodeRender.NextContent | scripts/render_tool_config.py:152-154 | the search passes over blank and comment lines only, and stops at the first other line or at the end |
| OpencodeRender.SkipToContent | scripts/render_tool_config.py:152-154 | the inner while loop computes that line |
| OpencodeRender.Marks | scripts/render_tool_config.py:149-159 | one optional key per line: the key the line marks |
| OpencodeRender.MarkOf | scripts/render_tool_config.py:150-159 | one iteration of the scan finds the key line i marks |
| OpencodeRender.ScanWorkOnlyKeys | scripts/render_tool_config.py:146-159 | the scan collects the keys of all marked lines |
| OpencodeRender.MarkerKeyIff | scripts/render_tool_config.py:150-159 | line i marks k exactly when it is a marker and the first line after it that is neither blank nor a comment opens k |
| OpencodeRender.KeysOfIff | scripts/render_tool_config.py:159 | a key is collected exactly when some line marks it |
| OpencodeRender.WorkOnlyKeysIff | scripts/render_tool_config.py:146-159 | k is collected exactly when some marker line is followed by a line opening k, with only blank and comment lines between; collected keys are non-empty and have no quote |
| OpencodeRender.FilterMcp | scripts/render_tool_config.py:164-169 | the filter in the source's steps computes the declarative filter, including its failures |
| OpencodeRender.DeleteKeys | scripts/render_tool_config.py:166-168 | the del loop over a snapshot of the keys removes exactly the members whose key was collected |
| OpencodeRender.FilteredFails | scripts/render_tool_config.py:164-169 | outside work mode the filter fails exactly when the data is not an object, or its truthy "mcp" member is not an object |
| OpencodeRender.FilteredWork | scripts/render_tool_config.py:164 | in work mode the data is untouched and no "mcp" key is added |
| OpencodeRender.FilteredSpec | scripts/render_tool_config.py:164-169 | outside work mode the result's "mcp" is the original "mcp" (or {} when missing or falsy) minus the collected keys, in order; other top-level keys are unchanged; "mcp" is placed last only if new |
| OpencodeRender.FilteredNoMatch | scripts/render_tool_config.py:166-168 | when no collected key is in "mcp", only the assignment of "mcp" remains |
| OpencodeRender.NoKeysRemoved | scripts/render_tool_config.py:166-168 | deleting no keys changes nothing |
| OpencodeRender.McpOfPut | scripts/render_tool_config.py:165-169 | the stored "mcp" object is what a later get finds |
| OpencodeRender.FilteredIdempotent | scripts/render_tool_config.py:164-169 | filtering the output again changes nothing |
| OpencodeRender.RenderOpencode | scripts/render_tool_config.py:142-171 | the renderer scans the keys, cleans the text, decodes, filters and encodes |
| OpencodeRender.OpencodeOutputEnds | scripts/render_tool_config.py:171 | a rendered config ends with a line feed |
| OpencodeRender.OpencodeWork | scripts/render_tool_config.py:161-171 | in work mode the output is the decoded cleaned text, encoded with a final line feed, or an invalid-JSON error when it does not decode |
| ToolRender.ParseBool | scripts/render_tool_config.py:13-19 | a rejected argument is reported with its original text |
| ToolRender.ParseBoolNormal | scripts/render_tool_config.py:14 | the result depends only on the stripped, lower-cased text |
| ToolRender.ParseBoolUpper | scripts/render_tool_config.py:14 | upper-casing the argument reads the same value |
| ToolRender.ParseBoolPadded | scripts/render_tool_config.py:14 | whitespace around the argument reads the same value |
| ToolRender.ParseBoolWords | scripts/render_tool_config.py:13-19 | true exactly for true, 1, yes and y; false exactly for false, 0, no and n; an error for everything else |
| ToolRender.Render | scripts/render_tool_config.py:174-179 | the dispatch computes the rendered output for the tool |
| ToolRender.RenderUnknown | scripts/render_tool_config.py:174-179 | the Codex renderer never fails, and any name other than "codex" and "opencode" is an unknown-tool error |
| ToolRender.CodexRenderWork | scripts/render_tool_config.py:174-176 | in work mode the Codex output is the text without its marker lines |
| ToolRender.CodexRenderUnmarked | scripts/render_tool_config.py:174-176 | a Codex text without marker lines renders to itself |

## Left out

- File I/O. The model takes file contents as text and returns output as text. Missing here:
  - opening, reading and writing files;
  - the `except` that turns an unreadable history into `{}`, and a failed write into `False`;
  - newline translation when reading a file.
- CLI plumbing: argument-count checks, argparse, `main` and the exit codes.
- `hashlib.sha256` and `--hash-only`. These are a cryptographic primitive and its caller.
- `json.loads` and `json.dumps(indent=2)` are parameters, `decode` and `encode`, of the OpenCode renderer.
  - `decode` returns nothing for invalid JSON.
  - The model only assumes that decoded JSON is a value of the `Json` datatype, with numbers as reals.
  - The model does not cover JSON well-formedness, the printed format, or how duplicate keys are decoded. Object lookup uses the first member with the key.
- Unicode. Whitespace is the ASCII set Python's `isspace()` recognises, and case mapping is ASCII. `int()` accepts ASCII digits with single underscores, an optional sign and surrounding whitespace; non-ASCII digits are not modelled.
- Numerals.ParseInt, Numerals.IntToString: CPython limits int() and str() conversions to 4300 digits by default, and raises ValueError beyond that. The limit can be changed with `sys.set_int_max_str_digits` or `PYTHONINTMAXSTRDIGITS`, and older versions have no limit. The model has no limit. So with the default limit:
  - a `  when: ` line with more than 4300 digits parses in the model, while the source's except turns the whole file into `{}`;
  - Numerals.ParseIntToString holds in the source only for |n| < 10^4300.
  - for a larger timestamp the source's `str()` raises while writing, so the write fails; the model's writer always produces text.
- OpencodeRender.FilterMcp: in the source, `mcp` is the same dict object as `data["mcp"]`, and `del` mutates it in place. The model computes the new value and stores it back, which gives the same result because the source assigns it back too.
- HistoryRoundTrip.RoundTrip: the entries must be writable. This requires more than that the commands are distinct. A command must be one line, non-empty, without edge whitespace and without `- cmd: `. A path must be one line, must not contain `- cmd: `, and must not start with `cmd: `. The last path must be non-empty and end in a non-space character. Without these conditions the round trip fails:
  - an empty last path is written as `    - `, which strip() shortens;
  - a path `cmd: x` is written as `    - cmd: x`, which contains the marker.
- `home/.chezmoiscripts/.commentize.mjs` is not part of this model. It shells out to external tools and runs them concurrently.
