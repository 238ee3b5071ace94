/** Merging two parsed histories and writing the result: the remote
    entries are stored on top of the local ones, the entries are sorted by
    timestamp with a stable sort, and each entry is written as its marker
    line, an optional "  when: " line and an optional "  paths:" block. */
module HistoryMerge {
  import opened Wrappers
  import opened Text
  import opened Numerals
  import opened HistoryEntries
  import opened HistoryParse

  // ---------------------------------------------------------------------
  // Merging

  /** The loop over the remote entries, each stored into a copy of the
      local dictionary. */
  method MergeEntries(local: seq<Entry>, remote: seq<Entry>) returns (all: seq<Entry>)
    ensures all == UpsertAll(local, remote)
  {
    all := local;
    for k := 0 to |remote|
      invariant all == UpsertAll(local, remote[..k])
    {
      assert remote[..k + 1][..k] == remote[..k];
      all := Store(all, remote[k]);
    }
    assert remote[..|remote|] == remote;
  }

  // ---------------------------------------------------------------------
  // Sorting by timestamp

  predicate SortedByTimestamp(es: seq<Entry>) {
    forall i, j :: 0 <= i < j < |es| ==> Timestamp(es[i]) <= Timestamp(es[j])
  }

  /** The entries whose timestamp is t, in order. */
  function WithTimestamp(es: seq<Entry>, t: int): seq<Entry>
    decreases |es|
  {
    if es == [] then []
    else WithTimestamp(es[..|es| - 1], t) + (if Timestamp(es[|es| - 1]) == t then [es[|es| - 1]] else [])
  }

  /** Put e into sorted s after every entry whose timestamp is not larger
      than e's. */
  function InsertByTimestamp(s: seq<Entry>, e: Entry): seq<Entry>
    decreases |s|
  {
    if s == [] || Timestamp(s[|s| - 1]) <= Timestamp(e) then s + [e]
    else InsertByTimestamp(s[..|s| - 1], e) + [s[|s| - 1]]
  }

  /** sorted(entries, key=timestamp): a stable sort by timestamp. */
  function SortByTimestamp(es: seq<Entry>): seq<Entry>
    decreases |es|
  {
    if es == [] then []
    else InsertByTimestamp(SortByTimestamp(es[..|es| - 1]), es[|es| - 1])
  }

  lemma WithTimestampSnoc(es: seq<Entry>, e: Entry, t: int)
    ensures WithTimestamp(es + [e], t) == WithTimestamp(es, t) + (if Timestamp(e) == t then [e] else [])
  {
    assert (es + [e])[..|es|] == es;
  }

  /** Insertion keeps the entries and adds e. */
  lemma {:induction false} InsertMultiset(s: seq<Entry>, e: Entry)
    ensures multiset(InsertByTimestamp(s, e)) == multiset(s) + multiset{e}
    decreases |s|
  {
    if !(s == [] || Timestamp(s[|s| - 1]) <= Timestamp(e)) {
      var p := s[..|s| - 1];
      assert s == p + [s[|s| - 1]];
      InsertMultiset(p, e);
    }
  }

  /** Insertion into a sorted sequence keeps it sorted. */
  lemma {:induction false} InsertSorted(s: seq<Entry>, e: Entry)
    requires SortedByTimestamp(s)
    ensures SortedByTimestamp(InsertByTimestamp(s, e))
    decreases |s|
  {
    if !(s == [] || Timestamp(s[|s| - 1]) <= Timestamp(e)) {
      var p := s[..|s| - 1];
      var x := s[|s| - 1];
      assert s == p + [x];
      InsertSorted(p, e);
      InsertMultiset(p, e);
      var r := InsertByTimestamp(p, e);
      forall i | 0 <= i < |r| ensures Timestamp(r[i]) <= Timestamp(x) {
        assert r[i] in multiset(r);
        assert r[i] == e || r[i] in p;
      }
    }
  }

  /** Insertion puts e behind every entry with the same timestamp. */
  lemma {:induction false} InsertStable(s: seq<Entry>, e: Entry, t: int)
    ensures WithTimestamp(InsertByTimestamp(s, e), t) == WithTimestamp(s, t) + (if Timestamp(e) == t then [e] else [])
    decreases |s|
  {
    if s == [] || Timestamp(s[|s| - 1]) <= Timestamp(e) {
      WithTimestampSnoc(s, e, t);
    } else {
      var p := s[..|s| - 1];
      var x := s[|s| - 1];
      assert s == p + [x];
      InsertStable(p, e, t);
      WithTimestampSnoc(InsertByTimestamp(p, e), x, t);
      WithTimestampSnoc(p, x, t);
    }
  }

  /** The sort orders by timestamp, permutes its input, and keeps entries
      with equal timestamps in their input order. */
  lemma SortByTimestampSpec(es: seq<Entry>)
    ensures SortedByTimestamp(SortByTimestamp(es))
    ensures multiset(SortByTimestamp(es)) == multiset(es)
    ensures forall t :: WithTimestamp(SortByTimestamp(es), t) == WithTimestamp(es, t)
  {
    SortByTimestampSorted(es);
    SortByTimestampPermutes(es);
    forall t ensures WithTimestamp(SortByTimestamp(es), t) == WithTimestamp(es, t) {
      SortByTimestampStable(es, t);
    }
  }

  lemma {:induction false} SortByTimestampSorted(es: seq<Entry>)
    ensures SortedByTimestamp(SortByTimestamp(es))
    decreases |es|
  {
    if es != [] {
      SortByTimestampSorted(es[..|es| - 1]);
      InsertSorted(SortByTimestamp(es[..|es| - 1]), es[|es| - 1]);
    }
  }

  lemma {:induction false} SortByTimestampPermutes(es: seq<Entry>)
    ensures multiset(SortByTimestamp(es)) == multiset(es)
    decreases |es|
  {
    if es != [] {
      var p := es[..|es| - 1];
      var x := es[|es| - 1];
      assert es == p + [x];
      SortByTimestampPermutes(p);
      InsertMultiset(SortByTimestamp(p), x);
    }
  }

  lemma {:induction false} SortByTimestampStable(es: seq<Entry>, t: int)
    ensures WithTimestamp(SortByTimestamp(es), t) == WithTimestamp(es, t)
    decreases |es|
  {
    if es != [] {
      var p := es[..|es| - 1];
      var x := es[|es| - 1];
      SortByTimestampStable(p, t);
      InsertStable(SortByTimestamp(p), x, t);
    }
  }

  // ---------------------------------------------------------------------
  // Writing

  function PathLines(paths: seq<string>): seq<string> {
    seq(|paths|, k requires 0 <= k < |paths| => PathItemPrefix + paths[k])
  }

  /** The "  when: " line, when the entry has a timestamp. */
  function WhenLines(e: Entry): seq<string> {
    if e.when.Some? then [WhenPrefix + IntToString(e.when.value)] else []
  }

  /** The "  paths:" line and one item line per path, when the entry has a
      path list; the "  paths:" line appears even for an empty list. */
  function PathsBlock(e: Entry): seq<string> {
    if e.paths.Some? then [PathsPrefix] + PathLines(e.paths.value) else []
  }

  /** The lines written for an entry. */
  function EntryLines(e: Entry): seq<string> {
    [CmdMarker + e.cmd] + WhenLines(e) + PathsBlock(e)
  }

  /** The lines written for an entry before its path items. */
  function HeadLines(e: Entry): seq<string> {
    [CmdMarker + e.cmd] + WhenLines(e) + (if e.paths.Some? then [PathsPrefix] else [])
  }

  function EntryText(e: Entry): string {
    Unlines(EntryLines(e))
  }

  /** The text written for a sequence of entries. */
  function HistoryText(es: seq<Entry>): string
    decreases |es|
  {
    if es == [] then "" else HistoryText(es[..|es| - 1]) + EntryText(es[|es| - 1])
  }

  /** The writing loop over the sorted entries. */
  method WriteHistory(es: seq<Entry>) returns (text: string)
    ensures text == HistoryText(es)
  {
    text := "";
    for k := 0 to |es|
      invariant text == HistoryText(es[..k])
    {
      assert es[..k + 1][..k] == es[..k];
      text := WriteEntry(text, es[k]);
    }
    assert es[..|es|] == es;
  }

  /** The body of the writing loop: one entry's lines. */
  method WriteEntry(before: string, e: Entry) returns (text: string)
    ensures text == before + EntryText(e)
  {
    text := WriteHead(before, e);
    EntryTextSplit(e);
    if e.paths.Some? {
      var head := text;
      text := WritePaths(head, e.paths.value);
      AppendAssoc(before, Unlines(HeadLines(e)), Unlines(PathLines(e.paths.value)));
    } else {
      assert EntryText(e) == Unlines(HeadLines(e)) + "";
    }
  }

  /** An entry's text is its head followed by its path items. */
  lemma EntryTextSplit(e: Entry)
    ensures EntryText(e) == Unlines(HeadLines(e))
                            + (if e.paths.Some? then Unlines(PathLines(e.paths.value)) else "")
  {
    if e.paths.Some? {
      AppendAssoc([CmdMarker + e.cmd] + WhenLines(e), [PathsPrefix], PathLines(e.paths.value));
      UnlinesAppend(HeadLines(e), PathLines(e.paths.value));
    } else {
      assert Unlines(HeadLines(e)) + "" == Unlines(HeadLines(e));
    }
  }

  /** The marker line, the "  when: " line and the "  paths:" line. */
  method WriteHead(before: string, e: Entry) returns (text: string)
    ensures text == before + Unlines(HeadLines(e))
  {
    var first := CmdMarker + e.cmd + "\n";
    text := before + first;
    var when := "";
    if e.when.Some? {
      var line := WhenPrefix + IntToString(e.when.value);
      UnlinesOne(line);
      when := line + "\n";
      text := text + when;
    }
    var paths := "";
    if e.paths.Some? {
      UnlinesOne(PathsPrefix);
      paths := PathsPrefix + "\n";
      text := text + paths;
    }
    HeadText(e);
    AppendAssoc(before, first, when);
    AppendAssoc(before, first + when, paths);
  }

  /** The head's text, line by line. */
  lemma HeadText(e: Entry)
    ensures Unlines(HeadLines(e))
         == CmdMarker + e.cmd + "\n" + Unlines(WhenLines(e))
            + Unlines(if e.paths.Some? then [PathsPrefix] else [])
  {
    var w := WhenLines(e);
    var p: seq<string> := if e.paths.Some? then [PathsPrefix] else [];
    ConsAssoc(CmdMarker + e.cmd, w, p);
    UnlinesCons(CmdMarker + e.cmd, w + p);
    UnlinesAppend(w, p);
    AppendAssoc(CmdMarker + e.cmd + "\n", Unlines(w), Unlines(p));
  }

  /** The inner writing loop, one "    - " line per path. */
  method WritePaths(before: string, paths: seq<string>) returns (text: string)
    ensures text == before + Unlines(PathLines(paths))
  {
    text := before;
    for m := 0 to |paths|
      invariant text == before + Unlines(PathLines(paths[..m]))
    {
      assert PathLines(paths[..m + 1]) == PathLines(paths[..m]) + [PathItemPrefix + paths[m]];
      UnlinesSnoc(PathLines(paths[..m]), PathItemPrefix + paths[m]);
      text := text + PathItemPrefix + paths[m] + "\n";
    }
    assert paths[..|paths|] == paths;
  }

  // ---------------------------------------------------------------------
  // The whole merge

  /** The merged entries: remote stored on top of local, sorted by
      timestamp. */
  function MergedEntries(localText: string, remoteText: string): seq<Entry> {
    SortByTimestamp(UpsertAll(Parsed(localText), Parsed(remoteText)))
  }

  method MergeHistories(localText: string, remoteText: string) returns (output: string)
    ensures output == HistoryText(MergedEntries(localText, remoteText))
  {
    var local := ParseFishHistory(localText);
    var remote := ParseFishHistory(remoteText);
    var all := MergeEntries(local, remote);
    output := WriteHistory(SortByTimestamp(all));
  }

  /** Two empty histories merge into empty text. */
  lemma MergeEmpty()
    ensures HistoryText(MergedEntries("", "")) == ""
  {
    ParsedWithoutMarker("");
  }

  /** The merged entries hold one entry per command of either side (the
      remote one only when strictly newer), in non-decreasing timestamp
      order; entries with equal timestamps keep the merged dictionary's
      order, which is the local order followed by the commands new in
      remote, in remote order. */
  lemma MergedEntriesSpec(localText: string, remoteText: string)
    ensures var merged := UpsertAll(Parsed(localText), Parsed(remoteText));
      && SortedByTimestamp(MergedEntries(localText, remoteText))
      && multiset(MergedEntries(localText, remoteText)) == multiset(merged)
      && (forall t :: WithTimestamp(MergedEntries(localText, remoteText), t) == WithTimestamp(merged, t))
      && DistinctCmds(merged)
      && Cmds(merged) == Cmds(Parsed(localText)) + Missing(Cmds(Parsed(remoteText)), Cmds(Parsed(localText)))
      && forall c :: Lookup(merged, c) == Chosen(Lookup(Parsed(localText), c), Lookup(Parsed(remoteText), c))
  {
    var local := Parsed(localText);
    var remote := Parsed(remoteText);
    ParsedDistinct(localText);
    ParsedDistinct(remoteText);
    MergeCmds(local, remote);
    SortByTimestampSpec(UpsertAll(local, remote));
    forall c ensures Lookup(UpsertAll(local, remote), c) == Chosen(Lookup(local, c), Lookup(remote, c)) {
      MergeLookup(local, remote, c);
    }
  }
}
