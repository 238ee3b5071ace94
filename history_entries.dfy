/** The in-memory form of a fish history: an insertion-ordered dictionary
    from command text to its entry, kept as a sequence of entries. Storing
    an entry under a command that is already present replaces it at the
    same position, as assignment to an existing key of a Python dict does. */
module HistoryEntries {
  import opened Wrappers
  import opened Text

  /** One record: the command, the optional "when" timestamp and the
      optional "paths" list. */
  datatype Entry = Entry(cmd: string, when: Option<int>, paths: Option<seq<string>>)

  /** entry.get("when", 0): an entry without a timestamp counts as 0. */
  function Timestamp(e: Entry): int {
    e.when.GetOr(0)
  }

  /** The dictionary's keys, in insertion order. */
  function Cmds(es: seq<Entry>): seq<string> {
    seq(|es|, i requires 0 <= i < |es| => es[i].cmd)
  }

  predicate DistinctCmds(es: seq<Entry>) {
    Distinct(Cmds(es))
  }

  /** entries.get(c) */
  function Lookup(es: seq<Entry>, c: string): (r: Option<Entry>)
    ensures r.None? <==> c !in Cmds(es)
    ensures r.Some? ==> r.value in es && r.value.cmd == c
  {
    match IndexOf(Cmds(es), c)
    case None => None
    case Some(k) => Some(es[k])
  }

  /** Store e under its command unless an entry for that command is already
      there with a timestamp at least as large. */
  function Upsert(es: seq<Entry>, e: Entry): seq<Entry> {
    match IndexOf(Cmds(es), e.cmd)
    case None => es + [e]
    case Some(k) => if Timestamp(e) > Timestamp(es[k]) then es[k := e] else es
  }

  /** Upsert as the statements the parse and merge loops execute. */
  method Store(entries: seq<Entry>, e: Entry) returns (updated: seq<Entry>)
    ensures updated == Upsert(entries, e)
  {
    updated := entries;
    match IndexOf(Cmds(entries), e.cmd) {
      case None =>
        updated := entries + [e];
      case Some(k) =>
        if Timestamp(e) > Timestamp(entries[k]) {
          updated := entries[k := e];
        }
    }
  }

  /** Upsert every entry of `more`, in order, into `es`. */
  function UpsertAll(es: seq<Entry>, more: seq<Entry>): seq<Entry>
    decreases |more|
  {
    if more == [] then es
    else Upsert(UpsertAll(es, more[..|more| - 1]), more[|more| - 1])
  }

  /** Which of two candidates for one command survives when `r` is stored
      on top of `l`: `r` only when it is strictly newer. */
  function Chosen(l: Option<Entry>, r: Option<Entry>): Option<Entry> {
    if l.None? then r
    else if r.None? then l
    else if Timestamp(r.value) > Timestamp(l.value) then r
    else l
  }

  /** Index i holds the entry for c that a strictly-newer-wins scan keeps:
      no entry for c has a larger timestamp, and every earlier one has a
      smaller timestamp. */
  predicate IsWinner(es: seq<Entry>, c: string, i: int) {
    && 0 <= i < |es| && es[i].cmd == c
    && (forall j :: 0 <= j < |es| && es[j].cmd == c ==> Timestamp(es[j]) <= Timestamp(es[i]))
    && (forall j :: 0 <= j < i && es[j].cmd == c ==> Timestamp(es[j]) < Timestamp(es[i]))
  }

  // ---------------------------------------------------------------------
  // Key order

  /** Append to xs every element of ys not already present, in order. */
  function AddNew(xs: seq<string>, ys: seq<string>): seq<string>
    decreases |ys|
  {
    if ys == [] then xs
    else
      var r := AddNew(xs, ys[..|ys| - 1]);
      if ys[|ys| - 1] in r then r else r + [ys[|ys| - 1]]
  }

  /** The elements of ys that are not in xs, in order. */
  function Missing(ys: seq<string>, xs: seq<string>): (r: seq<string>)
    ensures forall c :: c in r <==> c in ys && c !in xs
    decreases |ys|
  {
    if ys == [] then []
    else Missing(ys[..|ys| - 1], xs) + (if ys[|ys| - 1] in xs then [] else [ys[|ys| - 1]])
  }

  lemma {:induction false} AddNewElements(xs: seq<string>, ys: seq<string>)
    ensures forall c :: c in AddNew(xs, ys) <==> c in xs || c in ys
    ensures |xs| <= |AddNew(xs, ys)| && AddNew(xs, ys)[..|xs|] == xs
    ensures Distinct(xs) ==> Distinct(AddNew(xs, ys))
    decreases |ys|
  {
    if ys != [] {
      var p := ys[..|ys| - 1];
      assert ys == p + [ys[|ys| - 1]];
      AddNewElements(xs, p);
    }
  }

  /** Keys come out in the order of their first occurrence in xs + ys. */
  lemma {:induction false} AddNewFirstOccurrence(xs: seq<string>, ys: seq<string>)
    requires Distinct(xs)
    ensures forall c :: c in AddNew(xs, ys) <==> c in xs + ys
    ensures forall i, j :: 0 <= i < j < |AddNew(xs, ys)| ==>
      IndexOf(xs + ys, AddNew(xs, ys)[i]).value < IndexOf(xs + ys, AddNew(xs, ys)[j]).value
    decreases |ys|
  {
    if ys == [] {
      assert xs + ys == xs;
      forall i, j | 0 <= i < j < |xs|
        ensures IndexOf(xs, xs[i]).value < IndexOf(xs, xs[j]).value
      {
        assert IndexOf(xs, xs[i]) == Some(i) && IndexOf(xs, xs[j]) == Some(j);
      }
    } else {
      var p := ys[..|ys| - 1];
      AddNewFirstOccurrence(xs, p);
      assert xs + ys == (xs + p) + [ys[|ys| - 1]];
      FirstOccurrenceStep(xs + p, ys[|ys| - 1], AddNew(xs, p));
    }
  }

  /** Appending y to the scanned sequence, and to r when it is new, keeps
      r in first-occurrence order. */
  lemma FirstOccurrenceStep(zs: seq<string>, y: string, r: seq<string>)
    requires forall c :: c in r <==> c in zs
    requires forall i, j :: 0 <= i < j < |r| ==> IndexOf(zs, r[i]).value < IndexOf(zs, r[j]).value
    ensures var r' := if y in r then r else r + [y];
      && (forall c :: c in r' <==> c in zs + [y])
      && forall i, j :: 0 <= i < j < |r'| ==> IndexOf(zs + [y], r'[i]).value < IndexOf(zs + [y], r'[j]).value
  {
    forall c | c in r
      ensures IndexOf(zs + [y], c) == IndexOf(zs, c)
    {
      IndexOfAppend(zs, [y], c);
    }
    if y !in r {
      FirstOccurrenceNew(zs, y, r);
    }
  }

  lemma FirstOccurrenceNew(zs: seq<string>, y: string, r: seq<string>)
    requires y !in zs
    requires forall c :: c in r ==> c in zs && IndexOf(zs + [y], c) == IndexOf(zs, c)
    requires forall i, j :: 0 <= i < j < |r| ==> IndexOf(zs, r[i]).value < IndexOf(zs, r[j]).value
    ensures forall i, j :: 0 <= i < j < |r| + 1 ==> IndexOf(zs + [y], (r + [y])[i]).value < IndexOf(zs + [y], (r + [y])[j]).value
  {
    var r' := r + [y];
    assert IndexOf(zs + [y], y).value == |zs|;
    forall i, j | 0 <= i < j < |r'|
      ensures IndexOf(zs + [y], r'[i]).value < IndexOf(zs + [y], r'[j]).value
    {
      assert r'[i] == r[i] && r[i] in r;
      if j < |r| {
        assert r'[j] == r[j] && r[j] in r;
      }
    }
  }

  /** Appending keys that are all new and pairwise distinct appends them
      all. */
  lemma {:induction false} AddNewFresh(xs: seq<string>, ys: seq<string>)
    requires Distinct(xs + ys)
    ensures AddNew(xs, ys) == xs + ys
    decreases |ys|
  {
    if ys != [] {
      var p := ys[..|ys| - 1];
      var y := ys[|ys| - 1];
      assert xs + ys == (xs + p) + [y];
      assert Distinct(xs + p) by {
        forall i, j | 0 <= i < j < |xs + p| ensures (xs + p)[i] != (xs + p)[j] {
          assert (xs + p)[i] == (xs + ys)[i] && (xs + p)[j] == (xs + ys)[j];
        }
      }
      AddNewFresh(xs, p);
      assert y !in xs + p by {
        forall k | 0 <= k < |xs + p| ensures (xs + p)[k] != y {
          assert (xs + p)[k] == (xs + ys)[k] && (xs + ys)[|xs + ys| - 1] == y;
        }
      }
    }
  }

  /** With distinct ys, the keys of ys missing from xs are appended in ys's
      order. */
  lemma {:induction false} AddNewMissing(xs: seq<string>, ys: seq<string>)
    requires Distinct(ys)
    ensures AddNew(xs, ys) == xs + Missing(ys, xs)
    decreases |ys|
  {
    if ys != [] {
      var p := ys[..|ys| - 1];
      var y := ys[|ys| - 1];
      assert Distinct(p) by {
        forall i, j | 0 <= i < j < |p| ensures p[i] != p[j] {
          assert p[i] == ys[i] && p[j] == ys[j];
        }
      }
      AddNewMissing(xs, p);
      AddNewElements(xs, p);
    }
  }

  // ---------------------------------------------------------------------
  // Storing entries

  /** Storing keeps the key order and appends a new key at the end. */
  lemma UpsertCmds(es: seq<Entry>, e: Entry)
    ensures Cmds(Upsert(es, e)) == if e.cmd in Cmds(es) then Cmds(es) else Cmds(es) + [e.cmd]
  {
    match IndexOf(Cmds(es), e.cmd)
    case None =>
      assert Cmds(es + [e]) == Cmds(es) + [e.cmd];
    case Some(k) =>
      assert Cmds(es[k := e]) == Cmds(es);
  }

  /** The keys after a fold of stores: the old keys in their order, then
      each new key at its first store. */
  lemma {:induction false} UpsertAllCmds(es: seq<Entry>, more: seq<Entry>)
    ensures Cmds(UpsertAll(es, more)) == AddNew(Cmds(es), Cmds(more))
    decreases |more|
  {
    if more != [] {
      var p := more[..|more| - 1];
      assert Cmds(more)[..|more| - 1] == Cmds(p);
      UpsertAllCmds(es, p);
      UpsertCmds(UpsertAll(es, p), more[|more| - 1]);
    }
  }

  /** What one store does to every lookup: only the stored command can
      change, and it becomes the survivor of Chosen. */
  lemma LookupUpsert(es: seq<Entry>, e: Entry, c: string)
    ensures Lookup(Upsert(es, e), c) == if c == e.cmd then Chosen(Lookup(es, c), Some(e)) else Lookup(es, c)
  {
    UpsertCmds(es, e);
    match IndexOf(Cmds(es), e.cmd)
    case None =>
      var cs := Cmds(es);
      if c in cs {
        IndexOfAppend(cs, [e.cmd], c);
      }
    case Some(k) =>
      if Timestamp(e) > Timestamp(es[k]) {
        assert Cmds(es[k := e]) == Cmds(es);
      }
  }

  /** Storing entries whose commands are all new appends them. */
  lemma {:induction false} UpsertAllFresh(es: seq<Entry>, more: seq<Entry>)
    requires DistinctCmds(es + more)
    ensures UpsertAll(es, more) == es + more
    decreases |more|
  {
    if more != [] {
      var p := more[..|more| - 1];
      var x := more[|more| - 1];
      assert es + more == (es + p) + [x];
      assert Cmds(es + more) == Cmds(es + p) + [x.cmd];
      assert DistinctCmds(es + p) by {
        forall i, j | 0 <= i < j < |es + p|
          ensures Cmds(es + p)[i] != Cmds(es + p)[j]
        {
          assert Cmds(es + p)[i] == Cmds(es + more)[i];
          assert Cmds(es + p)[j] == Cmds(es + more)[j];
        }
      }
      UpsertAllFresh(es, p);
      assert x.cmd !in Cmds(es + p) by {
        forall k | 0 <= k < |es + p| ensures Cmds(es + p)[k] != x.cmd {
          assert Cmds(es + p)[k] == Cmds(es + more)[k] && Cmds(es + more)[|es + more| - 1] == x.cmd;
        }
      }
    }
  }

  // ---------------------------------------------------------------------
  // The merge fold: local entries first, remote entries stored on top

  lemma DistinctCmdsPrefix(es: seq<Entry>, n: nat)
    requires DistinctCmds(es) && n <= |es|
    ensures DistinctCmds(es[..n])
  {
    assert forall i :: 0 <= i < n ==> Cmds(es[..n])[i] == Cmds(es)[i];
  }

  /** Removing one entry keeps the commands distinct, and none of the
      others has its command. */
  lemma DistinctCmdsRemove(a: seq<Entry>, k: nat, rest: seq<Entry>)
    requires k < |a| && DistinctCmds(a) && rest == a[..k] + a[k + 1..]
    ensures DistinctCmds(rest)
    ensures forall m :: 0 <= m < |rest| ==> rest[m].cmd != a[k].cmd
  {
    forall m | 0 <= m < |rest|
      ensures rest[m] == a[if m < k then m else m + 1]
    {
    }
    forall i, j | 0 <= i < j < |rest|
      ensures Cmds(rest)[i] != Cmds(rest)[j]
    {
      assert Cmds(a)[if i < k then i else i + 1] != Cmds(a)[if j < k then j else j + 1];
    }
    forall m | 0 <= m < |rest|
      ensures rest[m].cmd != a[k].cmd
    {
      assert Cmds(a)[if m < k then m else m + 1] != Cmds(a)[k];
    }
  }

  /** Taking one occurrence of x out of both sides of a multiset equation. */
  lemma MultisetRemove(a: seq<Entry>, k: nat, b: seq<Entry>)
    requires k < |a| && |b| > 0 && a[k] == b[|b| - 1] && multiset(a) == multiset(b)
    ensures multiset(a[..k] + a[k + 1..]) == multiset(b[..|b| - 1])
  {
    var x := a[k];
    assert a == a[..k] + [x] + a[k + 1..];
    assert b == b[..|b| - 1] + [x];
    var ma := multiset(a[..k] + a[k + 1..]);
    var mb := multiset(b[..|b| - 1]);
    assert multiset(a) == ma + multiset{x};
    assert multiset(b) == mb + multiset{x};
    forall y
      ensures ma[y] == mb[y]
    {
      assert (ma + multiset{x})[y] == ma[y] + multiset{x}[y];
      assert (mb + multiset{x})[y] == mb[y] + multiset{x}[y];
    }
  }

  /** Reordering a dictionary's entries keeps its commands distinct. */
  lemma {:induction false} DistinctCmdsPermutation(a: seq<Entry>, b: seq<Entry>)
    requires multiset(a) == multiset(b) && DistinctCmds(a)
    ensures DistinctCmds(b)
    decreases |b|
  {
    if b != [] {
      var n := |b| - 1;
      var x := b[n];
      var bp := b[..n];
      assert x in multiset(a);
      var k :| 0 <= k < |a| && a[k] == x;
      var ap := a[..k] + a[k + 1..];
      MultisetRemove(a, k, b);
      DistinctCmdsRemove(a, k, ap);
      DistinctCmdsPermutation(ap, bp);
      forall i, j | 0 <= i < j < |b|
        ensures Cmds(b)[i] != Cmds(b)[j]
      {
        if j < n {
          assert Cmds(b)[i] == Cmds(bp)[i] && Cmds(b)[j] == Cmds(bp)[j];
        } else {
          assert bp[i] in multiset(ap);
          var m :| 0 <= m < |ap| && ap[m] == bp[i];
        }
      }
    }
  }

  /** For a shared command the remote entry wins only when strictly newer;
      a command on one side only keeps its entry. */
  lemma {:induction false} MergeLookup(local: seq<Entry>, remote: seq<Entry>, c: string)
    requires DistinctCmds(remote)
    ensures Lookup(UpsertAll(local, remote), c) == Chosen(Lookup(local, c), Lookup(remote, c))
    decreases |remote|
  {
    if remote == [] {
      assert Lookup(remote, c).None?;
    } else {
      var p := remote[..|remote| - 1];
      var x := remote[|remote| - 1];
      assert remote == p + [x];
      DistinctCmdsPrefix(remote, |p|);
      MergeLookup(local, p, c);
      LookupUpsert(UpsertAll(local, p), x, c);
      // remote is p with the fresh entry x stored at the end
      assert Cmds(remote) == Cmds(p) + [x.cmd];
      UpsertAllFresh(p, [x]);
      assert UpsertAll(p, [x]) == Upsert(p, x);
      LookupUpsert(p, x, c);
    }
  }

  /** The merged keys: the local keys in local order, then the remote keys
      new to local in remote order; the key set is the union. */
  lemma MergeCmds(local: seq<Entry>, remote: seq<Entry>)
    requires DistinctCmds(local) && DistinctCmds(remote)
    ensures Cmds(UpsertAll(local, remote)) == Cmds(local) + Missing(Cmds(remote), Cmds(local))
    ensures DistinctCmds(UpsertAll(local, remote))
    ensures forall c :: c in Cmds(UpsertAll(local, remote)) <==> c in Cmds(local) || c in Cmds(remote)
  {
    UpsertAllCmds(local, remote);
    AddNewMissing(Cmds(local), Cmds(remote));
    AddNewElements(Cmds(local), Cmds(remote));
  }

  // ---------------------------------------------------------------------
  // Deduplication within one file: entries stored one by one into {}

  /** Exactly the commands of the file survive, each with its winning entry. */
  lemma {:induction false} DedupLookup(es: seq<Entry>, c: string)
    ensures Lookup(UpsertAll([], es), c).Some? <==> c in Cmds(es)
    ensures Lookup(UpsertAll([], es), c).Some? ==>
      exists i :: IsWinner(es, c, i) && es[i] == Lookup(UpsertAll([], es), c).value
    decreases |es|
  {
    UpsertAllCmds([], es);
    AddNewElements([], Cmds(es));
    if es != [] {
      var p := es[..|es| - 1];
      var x := es[|es| - 1];
      DedupLookup(p, c);
      LookupUpsert(UpsertAll([], p), x, c);
      DedupStep(p, x, c, Lookup(UpsertAll([], p), c));
      assert p + [x] == es;
    }
  }

  /** One store on top of a deduplicated prefix moves the winner along. */
  lemma DedupStep(p: seq<Entry>, x: Entry, c: string, prev: Option<Entry>)
    requires prev.None? <==> c !in Cmds(p)
    requires prev.Some? ==> exists i :: IsWinner(p, c, i) && p[i] == prev.value
    ensures var next := if c == x.cmd then Chosen(prev, Some(x)) else prev;
      next.Some? ==> exists i :: IsWinner(p + [x], c, i) && (p + [x])[i] == next.value
  {
    if c != x.cmd {
      if prev.Some? {
        var i :| IsWinner(p, c, i) && p[i] == prev.value;
        WinnerKept(p, x, c, i);
      }
    } else if prev.None? {
      assert forall j :: 0 <= j < |p| ==> p[j].cmd == Cmds(p)[j];
      WinnerNew(p, x);
    } else {
      var i :| IsWinner(p, c, i) && p[i] == prev.value;
      if Timestamp(x) > Timestamp(p[i]) {
        WinnerNew(p, x);
      } else {
        WinnerKept(p, x, c, i);
      }
    }
  }

  /** An appended entry that does not beat the winner leaves it winning. */
  lemma WinnerKept(p: seq<Entry>, x: Entry, c: string, i: int)
    requires IsWinner(p, c, i)
    requires x.cmd == c ==> Timestamp(x) <= Timestamp(p[i])
    ensures IsWinner(p + [x], c, i)
  {
  }

  /** An appended entry newer than every entry of its command wins. */
  lemma WinnerNew(p: seq<Entry>, x: Entry)
    requires forall j :: 0 <= j < |p| && p[j].cmd == x.cmd ==> Timestamp(p[j]) < Timestamp(x)
    ensures IsWinner(p + [x], x.cmd, |p|)
  {
  }

  /** The surviving commands are distinct, are those of the file, and come
      in the order of their first occurrence. */
  lemma DedupOrder(es: seq<Entry>)
    ensures DistinctCmds(UpsertAll([], es))
    ensures forall c :: c in Cmds(UpsertAll([], es)) <==> c in Cmds(es)
    ensures forall i, j :: 0 <= i < j < |Cmds(UpsertAll([], es))| ==>
      IndexOf(Cmds(es), Cmds(UpsertAll([], es))[i]).value < IndexOf(Cmds(es), Cmds(UpsertAll([], es))[j]).value
  {
    UpsertAllCmds([], es);
    AddNewElements([], Cmds(es));
    AddNewFirstOccurrence([], Cmds(es));
    assert Cmds([]) == [];
    assert [] + Cmds(es) == Cmds(es);
  }
}
