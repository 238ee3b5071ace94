/** The slice of Python's string and sequence behaviour that both tools rely
    on: whitespace classes, strip, prefix tests, str.split, joining lines,
    ASCII lower-casing, and selecting the elements of a sequence under a
    boolean mask. Only ASCII characters are classified. */
module Text {
  import opened Wrappers

  /** What str.isspace() and the regular expression class \s accept
      among ASCII characters: tab, line feed, vertical tab, form feed,
      carriage return, the four separators 0x1C-0x1F and space. */
  predicate IsSpace(c: char) {
    c == ' ' || c == '\t' || c == '\n' || c == '\r' || c == '\U{B}' || c == '\U{C}'
    || ('\U{1C}' <= c <= '\U{1F}')
  }

  predicate AllSpace(s: string) {
    forall k :: 0 <= k < |s| ==> IsSpace(s[k])
  }

  /** str.lstrip(): drop the leading whitespace. */
  function LStrip(s: string): string
    decreases |s|
  {
    if s != [] && IsSpace(s[0]) then LStrip(s[1..]) else s
  }

  /** str.rstrip(): drop the trailing whitespace. */
  function RStrip(s: string): string
    decreases |s|
  {
    if s != [] && IsSpace(s[|s| - 1]) then RStrip(s[..|s| - 1]) else s
  }

  /** lstrip() keeps a suffix, removes only whitespace, and leaves no
      whitespace in front. */
  lemma {:induction false} LStripSpec(s: string)
    ensures |LStrip(s)| <= |s| && LStrip(s) == s[|s| - |LStrip(s)|..]
    ensures AllSpace(s[..|s| - |LStrip(s)|])
    ensures LStrip(s) == [] || !IsSpace(LStrip(s)[0])
    decreases |s|
  {
    if s != [] && IsSpace(s[0]) {
      LStripSpec(s[1..]);
      var n := |s| - |LStrip(s)|;
      assert s[..n] == [s[0]] + s[1..][..n - 1];
    }
  }

  /** rstrip() keeps a prefix, removes only whitespace, and leaves no
      whitespace at the end. */
  lemma {:induction false} RStripSpec(s: string)
    ensures |RStrip(s)| <= |s| && RStrip(s) == s[..|RStrip(s)|]
    ensures AllSpace(s[|RStrip(s)|..])
    ensures RStrip(s) == [] || !IsSpace(RStrip(s)[|RStrip(s)| - 1])
    decreases |s|
  {
    if s != [] && IsSpace(s[|s| - 1]) {
      RStripSpec(s[..|s| - 1]);
      var n := |RStrip(s)|;
      assert s[n..] == s[..|s| - 1][n..] + [s[|s| - 1]];
    }
  }

  /** str.strip() */
  function Strip(s: string): string {
    RStrip(LStrip(s))
  }

  /** A string whose first and last characters are not whitespace is its own
      strip(); with one line feed appended, strip() removes exactly that. */
  lemma StripNoEdgeSpace(s: string)
    requires s != [] && !IsSpace(s[0]) && !IsSpace(s[|s| - 1])
    ensures Strip(s) == s
    ensures Strip(s + "\n") == s
  {
    var t := s + "\n";
    assert LStrip(s) == s;
    assert LStrip(t) == t;
    assert t[..|t| - 1] == s;
    assert RStrip(t) == RStrip(s);
  }

  predicate StartsWith(s: string, prefix: string) {
    |prefix| <= |s| && s[..|prefix|] == prefix
  }

  /** `pat` occurs in `s` starting at index k. */
  predicate OccursAt(s: string, pat: string, k: int) {
    0 <= k && k + |pat| <= |s| && s[k..k + |pat|] == pat
  }

  predicate Contains(s: string, pat: string) {
    exists k :: 0 <= k <= |s| - |pat| && OccursAt(s, pat, k)
  }

  /** No occurrence of `pat` starts before index n of `s`. */
  predicate NoMatchBefore(s: string, pat: string, n: int) {
    forall k :: 0 <= k < n ==> !OccursAt(s, pat, k)
  }

  /** An occurrence inside the second half of a concatenation. */
  lemma OccursAtShift(x: string, y: string, pat: string, k: int)
    requires 0 <= k
    ensures OccursAt(x + y, pat, |x| + k) == OccursAt(y, pat, k)
  {
    if OccursAt(y, pat, k) {
      assert (x + y)[|x| + k..|x| + k + |pat|] == y[k..k + |pat|];
    }
    if OccursAt(x + y, pat, |x| + k) {
      assert (x + y)[|x| + k..|x| + k + |pat|] == y[k..k + |pat|];
    }
  }

  /** An occurrence that lies inside the first half of a concatenation. */
  lemma OccursAtPrefix(x: string, y: string, pat: string, k: int)
    requires 0 <= k && k + |pat| <= |x|
    ensures OccursAt(x + y, pat, k) == OccursAt(x, pat, k)
  {
    assert (x + y)[k..k + |pat|] == x[k..k + |pat|];
  }

  /** Python's str.split(sep) for a non-empty separator, scanning left to
      right: `cur` is the piece collected so far. Each leftmost occurrence of
      `sep` ends a piece; the pieces never overlap an occurrence. */
  function SplitFrom(s: string, sep: string, cur: string): (parts: seq<string>)
    requires |sep| > 0
    ensures |parts| > 0
    decreases |s|
  {
    if s == [] then [cur]
    else if StartsWith(s, sep) then [cur] + SplitFrom(s[|sep|..], sep, [])
    else SplitFrom(s[1..], sep, cur + [s[0]])
  }

  /** str.split(sep) */
  function Split(s: string, sep: string): seq<string>
    requires |sep| > 0
  {
    SplitFrom(s, sep, [])
  }

  /** A stretch of text in which no occurrence of the separator starts is
      appended to the current piece unchanged. */
  lemma {:induction false} SplitSkip(b: string, rest: string, sep: string, cur: string)
    requires |sep| > 0
    requires NoMatchBefore(b + rest, sep, |b|)
    ensures SplitFrom(b + rest, sep, cur) == SplitFrom(rest, sep, cur + b)
    decreases |b|
  {
    if b == [] {
      assert b + rest == rest;
      assert cur + b == cur;
    } else {
      var s := b + rest;
      assert !OccursAt(s, sep, 0);
      assert !StartsWith(s, sep);
      assert s[1..] == b[1..] + rest;
      forall k | 0 <= k < |b[1..]|
        ensures !OccursAt(b[1..] + rest, sep, k)
      {
        OccursAtShift([b[0]], b[1..] + rest, sep, k);
        assert [b[0]] + (b[1..] + rest) == s;
        assert !OccursAt(s, sep, 1 + k);
      }
      SplitSkip(b[1..], rest, sep, cur + [b[0]]);
      assert cur + [b[0]] + b[1..] == cur + b;
    }
  }

  /** A separator at the front ends the current piece. */
  lemma SplitAtSep(rest: string, sep: string, cur: string)
    requires |sep| > 0
    ensures SplitFrom(sep + rest, sep, cur) == [cur] + SplitFrom(rest, sep, [])
  {
    var s := sep + rest;
    assert s[..|sep|] == sep;
    assert s[|sep|..] == rest;
  }

  /** Text without the separator splits into the single piece `s`; in
      particular "".split(sep) == [""]. */
  lemma SplitWithout(s: string, sep: string)
    requires |sep| > 0
    requires !Contains(s, sep)
    ensures Split(s, sep) == [s]
  {
    forall k | 0 <= k < |s|
      ensures !OccursAt(s + [], sep, k)
    {
      assert s + [] == s;
    }
    SplitSkip(s, [], sep, []);
    assert s + [] == s;
    assert [] + s == s;
  }

  /** If every line is free of line feeds and of `pat`, and `pat` has no line
      feed, then no occurrence of `pat` starts inside the lines' text, whatever
      follows it. */
  lemma {:induction false} UnlinesNoMatch(ls: seq<string>, rest: string, pat: string)
    requires |pat| > 0 && '\n' !in pat
    requires forall i :: 0 <= i < |ls| ==> '\n' !in ls[i] && !Contains(ls[i], pat)
    ensures NoMatchBefore(Unlines(ls) + rest, pat, |Unlines(ls)|)
    decreases |ls|
  {
    if ls != [] {
      var l := ls[0];
      var tail := Unlines(ls[1..]) + rest;
      var s := Unlines(ls) + rest;
      assert s == l + ("\n" + tail);
      UnlinesNoMatch(ls[1..], rest, pat);
      forall k | 0 <= k < |Unlines(ls)|
        ensures !OccursAt(s, pat, k)
      {
        if k < |l| {
          if k + |pat| <= |l| {
            OccursAtPrefix(l, "\n" + tail, pat, k);
            assert !OccursAt(l, pat, k);
          } else {
            if k + |pat| <= |s| {
              assert s[|l|] == '\n';
              assert s[k..k + |pat|][|l| - k] == s[|l|];
            }
          }
        } else if k == |l| {
          assert s[k] == '\n';
        } else {
          assert s == (l + "\n") + tail;
          OccursAtShift(l + "\n", tail, pat, k - |l| - 1);
        }
      }
    }
  }

  /** The lines of a text, each terminated by a line feed (what writing
      `line + "\n"` for every line produces). */
  function Unlines(ls: seq<string>): string {
    if ls == [] then "" else ls[0] + "\n" + Unlines(ls[1..])
  }

  /** "\n".join(ls) */
  function JoinLines(ls: seq<string>): string {
    if |ls| == 0 then ""
    else if |ls| == 1 then ls[0]
    else ls[0] + "\n" + JoinLines(ls[1..])
  }

  lemma {:induction false} UnlinesAppend(a: seq<string>, b: seq<string>)
    ensures Unlines(a + b) == Unlines(a) + Unlines(b)
    decreases |a|
  {
    if a == [] {
      assert a + b == b;
    } else {
      assert (a + b)[1..] == a[1..] + b;
      UnlinesAppend(a[1..], b);
    }
  }

  lemma AppendAssoc<T>(a: seq<T>, b: seq<T>, c: seq<T>)
    ensures a + b + c == a + (b + c)
  {
  }

  lemma ConsAssoc<T>(x: T, a: seq<T>, b: seq<T>)
    ensures [x] + a + b == [x] + (a + b)
  {
  }

  lemma TakeSnoc<T>(s: seq<T>, i: nat)
    requires i < |s|
    ensures s[..i + 1] == s[..i] + [s[i]]
  {
  }

  /** The pieces of a sequence made of one element and two runs. */
  lemma ThreeParts<T>(x: T, a: seq<T>, b: seq<T>)
    ensures var s := [x] + a + b;
      && |s| == 1 + |a| + |b| && s[0] == x
      && s[1..1 + |a|] == a && s[1 + |a|..] == b
  {
    var s := [x] + a + b;
    assert s[1..1 + |a|] == a;
    assert s[1 + |a|..] == b;
  }

  lemma UnlinesOne(l: string)
    ensures Unlines([l]) == l + "\n"
  {
    assert [l][1..] == [];
  }

  lemma UnlinesCons(l: string, ls: seq<string>)
    ensures Unlines([l] + ls) == l + "\n" + Unlines(ls)
  {
    assert ([l] + ls)[1..] == ls;
  }

  lemma {:induction false} UnlinesSnoc(ls: seq<string>, l: string)
    ensures Unlines(ls + [l]) == Unlines(ls) + l + "\n"
  {
    if ls != [] {
      assert (ls + [l])[1..] == ls[1..] + [l];
      UnlinesSnoc(ls[1..], l);
    } else {
      assert ls + [l] == [l];
    }
  }

  lemma {:induction false} UnlinesJoin(ls: seq<string>)
    requires |ls| > 0
    ensures Unlines(ls) == JoinLines(ls) + "\n"
  {
    if |ls| > 1 {
      UnlinesJoin(ls[1..]);
    } else {
      assert ls[1..] == [];
    }
  }

  /** Joined lines start with the first character of the first line. */
  lemma JoinLinesFirst(ls: seq<string>)
    requires |ls| > 0 && ls[0] != []
    ensures |JoinLines(ls)| > 0 && JoinLines(ls)[0] == ls[0][0]
  {
  }

  /** The last character of joined lines is the last character of the last
      line, when that line is not empty. */
  lemma {:induction false} JoinLinesLast(ls: seq<string>)
    requires |ls| > 0 && ls[|ls| - 1] != []
    ensures |JoinLines(ls)| > 0
    ensures JoinLines(ls)[|JoinLines(ls)| - 1] == ls[|ls| - 1][|ls[|ls| - 1]| - 1]
  {
    if |ls| > 1 {
      JoinLinesLast(ls[1..]);
    }
  }

  /** Lines without line feeds survive "\n".join followed by split("\n"). */
  lemma {:induction false} SplitJoinLines(ls: seq<string>, cur: string)
    requires |ls| > 0
    requires forall i :: 0 <= i < |ls| ==> '\n' !in ls[i]
    ensures SplitFrom(JoinLines(ls), "\n", cur) == [cur + ls[0]] + ls[1..]
    decreases |ls|
  {
    var l := ls[0];
    if |ls| == 1 {
      SplitWithoutFeed(l, "", cur);
      assert l + "" == l;
    } else {
      var rest := "\n" + JoinLines(ls[1..]);
      assert JoinLines(ls) == l + rest;
      SplitWithoutFeed(l, rest, cur);
      SplitAtSep(JoinLines(ls[1..]), "\n", cur + l);
      SplitJoinLines(ls[1..], []);
      assert [] + ls[1..][0] == ls[1];
      assert [ls[1]] + ls[1..][1..] == ls[1..];
      calc {
        SplitFrom(JoinLines(ls), "\n", cur);
        SplitFrom(rest, "\n", cur + l);
        [cur + l] + SplitFrom(JoinLines(ls[1..]), "\n", []);
        [cur + l] + ([[] + ls[1..][0]] + ls[1..][1..]);
        [cur + ls[0]] + ls[1..];
      }
    }
  }

  lemma SplitWithoutFeed(l: string, rest: string, cur: string)
    requires '\n' !in l
    ensures SplitFrom(l + rest, "\n", cur) == SplitFrom(rest, "\n", cur + l)
  {
    forall k | 0 <= k < |l|
      ensures !OccursAt(l + rest, "\n", k)
    {
      assert (l + rest)[k] == l[k];
    }
    SplitSkip(l, rest, "\n", cur);
  }

  /** Concatenation of a sequence of sequences (Python's "".join, or list
      concatenation). */
  function Flatten<T>(ss: seq<seq<T>>): seq<T> {
    if ss == [] then [] else Flatten(ss[..|ss| - 1]) + ss[|ss| - 1]
  }

  lemma {:induction false} FlattenAppend<T>(a: seq<seq<T>>, b: seq<seq<T>>)
    ensures Flatten(a + b) == Flatten(a) + Flatten(b)
    decreases |b|
  {
    if b == [] {
      assert a + b == a;
    } else {
      var init := b[..|b| - 1];
      assert (a + b)[..|a + b| - 1] == a + init;
      assert (a + b)[|a + b| - 1] == b[|b| - 1];
      FlattenAppend(a, init);
      AppendAssoc(Flatten(a), Flatten(init), b[|b| - 1]);
    }
  }

  /** The index of the first occurrence of x in s (list.index, or a dict
      lookup on an insertion-ordered key list). */
  function IndexOf<T(==)>(s: seq<T>, x: T): (r: Option<nat>)
    ensures r.None? <==> x !in s
    ensures r.Some? ==> r.value < |s| && s[r.value] == x && x !in s[..r.value]
  {
    if s == [] then None
    else if s[0] == x then Some(0)
    else match IndexOf(s[1..], x)
      case None => None
      case Some(k) => assert s[..k + 1] == [s[0]] + s[1..][..k]; Some(k + 1)
  }

  /** Once x occurs in a, appending b does not move its first occurrence. */
  lemma {:induction false} IndexOfAppend<T>(a: seq<T>, b: seq<T>, x: T)
    requires x in a
    ensures IndexOf(a + b, x) == IndexOf(a, x)
    decreases |a|
  {
    if a[0] != x {
      assert (a + b)[1..] == a[1..] + b;
      IndexOfAppend(a[1..], b, x);
    }
  }

  /** No element occurs twice. */
  predicate Distinct<T(==)>(s: seq<T>) {
    forall i, j :: 0 <= i < j < |s| ==> s[i] != s[j]
  }

  /** The elements of s whose mask bit is set, in order. */
  function Pick<T>(s: seq<T>, mask: seq<bool>): seq<T>
    requires |mask| == |s|
  {
    if s == [] then []
    else Pick(s[..|s| - 1], mask[..|s| - 1]) + (if mask[|s| - 1] then [s[|s| - 1]] else [])
  }

  lemma {:induction false} PickAppend<T>(a: seq<T>, ma: seq<bool>, b: seq<T>, mb: seq<bool>)
    requires |ma| == |a| && |mb| == |b|
    ensures Pick(a + b, ma + mb) == Pick(a, ma) + Pick(b, mb)
    decreases |b|
  {
    if b == [] {
      assert a + b == a;
      assert ma + mb == ma;
    } else {
      var n := |a + b|;
      assert (a + b)[..n - 1] == a + b[..|b| - 1];
      assert (ma + mb)[..n - 1] == ma + mb[..|b| - 1];
      PickAppend(a, ma, b[..|b| - 1], mb[..|b| - 1]);
    }
  }

  /** One more position of a prefix under its mask. */
  lemma PickPrefixStep<T>(s: seq<T>, mask: seq<bool>, i: nat)
    requires |mask| == |s| && i < |s|
    ensures Pick(s[..i + 1], mask[..i + 1]) == Pick(s[..i], mask[..i]) + (if mask[i] then [s[i]] else [])
  {
    assert s[..i + 1][..i] == s[..i];
    assert mask[..i + 1][..i] == mask[..i];
  }

  /** a is a subsequence of b: b with some elements deleted. */
  ghost predicate IsSubseq<T>(a: seq<T>, b: seq<T>) {
    exists mask: seq<bool> :: |mask| == |b| && Pick(b, mask) == a
  }

  /** ASCII lower-casing (str.lower() on ASCII text). */
  function LowerChar(c: char): char {
    if 'A' <= c <= 'Z' then (c as int + 32) as char else c
  }

  function ToLower(s: string): (r: string)
    ensures |r| == |s|
  {
    seq(|s|, k requires 0 <= k < |s| => LowerChar(s[k]))
  }

  function UpperChar(c: char): char {
    if 'a' <= c <= 'z' then (c as int - 32) as char else c
  }

  function ToUpper(s: string): (r: string)
    ensures |r| == |s|
  {
    seq(|s|, k requires 0 <= k < |s| => UpperChar(s[k]))
  }

  // ---------------------------------------------------------------------
  // strip() and case mapping

  /** lstrip() passes over leading whitespace. */
  lemma {:induction false} LStripSpaces(ws: string, s: string)
    requires AllSpace(ws)
    ensures LStrip(ws + s) == LStrip(s)
    decreases |ws|
  {
    if ws == [] {
      assert ws + s == s;
    } else {
      assert (ws + s)[1..] == ws[1..] + s;
      LStripSpaces(ws[1..], s);
    }
  }

  /** rstrip() passes over trailing whitespace. */
  lemma {:induction false} RStripSpaces(s: string, ws: string)
    requires AllSpace(ws)
    ensures RStrip(s + ws) == RStrip(s)
    decreases |ws|
  {
    if ws == [] {
      assert s + ws == s;
    } else {
      var init := ws[..|ws| - 1];
      assert (s + ws)[..|s + ws| - 1] == s + init;
      RStripSpaces(s, init);
    }
  }

  /** Once lstrip() meets a non-space character, what follows is kept. */
  lemma {:induction false} LStripAppend(s: string, t: string)
    requires LStrip(s) != []
    ensures LStrip(s + t) == LStrip(s) + t
    decreases |s|
  {
    if IsSpace(s[0]) {
      assert (s + t)[1..] == s[1..] + t;
      LStripAppend(s[1..], t);
    }
  }

  lemma {:induction false} LStripAllSpace(s: string)
    requires AllSpace(s)
    ensures LStrip(s) == []
    decreases |s|
  {
    if s != [] {
      LStripAllSpace(s[1..]);
    }
  }

  /** strip() ignores whitespace added on either side. */
  lemma StripPadded(ws1: string, s: string, ws2: string)
    requires AllSpace(ws1) && AllSpace(ws2)
    ensures Strip(ws1 + s + ws2) == Strip(s)
  {
    assert ws1 + s + ws2 == ws1 + (s + ws2);
    LStripSpaces(ws1, s + ws2);
    if LStrip(s) != [] {
      LStripAppend(s, ws2);
      RStripSpaces(LStrip(s), ws2);
    } else {
      LStripSpec(s);
      assert AllSpace(s + ws2) by {
        assert s == s[..|s| - |LStrip(s)|];
      }
      LStripAllSpace(s + ws2);
    }
  }

  /** Upper-casing leaves whitespace alone, so it commutes with strip(). */
  lemma {:induction false} LStripUpper(s: string)
    ensures LStrip(ToUpper(s)) == ToUpper(LStrip(s))
    decreases |s|
  {
    if s != [] {
      assert ToUpper(s)[1..] == ToUpper(s[1..]);
      LStripUpper(s[1..]);
    }
  }

  lemma {:induction false} RStripUpper(s: string)
    ensures RStrip(ToUpper(s)) == ToUpper(RStrip(s))
    decreases |s|
  {
    if s != [] {
      assert ToUpper(s)[..|s| - 1] == ToUpper(s[..|s| - 1]);
      RStripUpper(s[..|s| - 1]);
    }
  }

  /** Lower-casing forgets an upper-casing done before it. */
  lemma LowerUpper(s: string)
    ensures ToLower(ToUpper(s)) == ToLower(s)
  {
    forall k | 0 <= k < |s|
      ensures ToLower(ToUpper(s))[k] == ToLower(s)[k]
    {
      var c := s[k];
      assert ToUpper(s)[k] == UpperChar(c);
      assert LowerChar(UpperChar(c)) == LowerChar(c);
    }
  }
}
