/** The two passes that turn JSON with comments into JSON: removing "//"
    and block comments outside strings, then removing commas that stand
    directly before a closing brace or bracket. Each pass is specified
    character by character: a state machine gives the mode before each
    position (reading at most one character ahead), the mode and the
    character decide whether the character is kept, and the pass outputs
    the kept characters in order. The methods are the source's loops,
    which jump over comments and look ahead over whitespace; they are
    proved to output exactly the kept characters. */
module JsoncClean {
  import opened Wrappers
  import opened Text

  /** Where a character sits: in code, in a string (just after a
      backslash or not), in a line comment, in a block comment, or on the
      second character of a two-character comment delimiter. */
  datatype Mode = Code | InString(escaped: bool) | LineComment | BlockComment | Skip(after: Mode)

  /** The character after position i, if any. */
  function Lookahead(text: string, i: nat): Option<char> {
    if i + 1 < |text| then Some(text[i + 1]) else None
  }

  /** Inside a string a backslash escapes the next character, and an
      unescaped quote ends the string. */
  function StringStep(escaped: bool, c: char): Mode {
    if escaped then InString(false)
    else if c == '\\' then InString(true)
    else if c == '"' then Code
    else InString(false)
  }

  predicate IsLineBreak(c: char) {
    c == '\n' || c == '\r'
  }

  /** The source's state: in a string or not, and the escape flag. */
  function FlagMode(inStr: bool, escape: bool): Mode {
    if inStr then InString(escape) else Code
  }

  /** The flag updates on a character inside a string. */
  method StringChar(escape: bool, c: char) returns (inStr': bool, escape': bool)
    ensures FlagMode(inStr', escape') == StringStep(escape, c)
    ensures !inStr' ==> !escape'
  {
    inStr', escape' := true, escape;
    if escape {
      escape' := false;
    } else if c == '\\' {
      escape' := true;
    } else if c == '"' {
      inStr' := false;
    }
  }

  // ---------------------------------------------------------------------
  // Comments

  /** The mode after a character. */
  function NextMode(m: Mode, c: char, next: Option<char>): Mode {
    match m
    case Code =>
      if c == '"' then InString(false)
      else if c == '/' && next == Some('/') then Skip(LineComment)
      else if c == '/' && next == Some('*') then Skip(BlockComment)
      else Code
    case InString(escaped) => StringStep(escaped, c)
    case LineComment => if IsLineBreak(c) then Code else LineComment
    case BlockComment => if c == '*' && next == Some('/') then Skip(Code) else BlockComment
    case Skip(after) => after
  }

  /** Whether the comment pass keeps a character. The line break that ends
      a line comment is kept. */
  predicate Kept(m: Mode, c: char, next: Option<char>) {
    match m
    case Code => !(c == '/' && (next == Some('/') || next == Some('*')))
    case InString(_) => true
    case LineComment => IsLineBreak(c)
    case BlockComment => false
    case Skip(_) => false
  }

  /** The mode before position i. */
  function ModeAt(text: string, i: nat): Mode
    requires i <= |text|
    decreases i
  {
    if i == 0 then Code else NextMode(ModeAt(text, i - 1), text[i - 1], Lookahead(text, i - 1))
  }

  predicate KeptAt(text: string, i: nat)
    requires i < |text|
  {
    Kept(ModeAt(text, i), text[i], Lookahead(text, i))
  }

  /** What the comment pass outputs for the first k characters. */
  function StripPrefix(text: string, k: nat): string
    requires k <= |text|
    decreases k
  {
    if k == 0 then [] else StripPrefix(text, k - 1) + (if KeptAt(text, k - 1) then [text[k - 1]] else [])
  }

  /** The text without its comments. */
  function StripComments(text: string): string {
    StripPrefix(text, |text|)
  }

  /** The mode the source tracks agrees with the mode before position i;
      the line break that ends a line comment is handled like code. */
  predicate Agrees(m: Mode, flags: Mode, c: char) {
    m == flags || (m == LineComment && flags == Code && IsLineBreak(c))
  }

  /** A position the source reaches acts as its flags say. */
  lemma CommentStep(text: string, i: nat, flags: Mode)
    requires i < |text| && Agrees(ModeAt(text, i), flags, text[i])
    ensures ModeAt(text, i + 1) == NextMode(flags, text[i], Lookahead(text, i))
    ensures KeptAt(text, i) == Kept(flags, text[i], Lookahead(text, i))
  {
  }

  /** The inner loop of a line comment: a character that is not a line
      break is dropped and the comment goes on. */
  lemma LineCommentStep(text: string, i: nat)
    requires i < |text| && ModeAt(text, i) == LineComment && !IsLineBreak(text[i])
    ensures ModeAt(text, i + 1) == LineComment && !KeptAt(text, i)
  {
  }

  /** The inner loop of a block comment: a character that does not start
      the closing delimiter is dropped and the comment goes on. */
  lemma BlockCommentStep(text: string, i: nat)
    requires i < |text| && ModeAt(text, i) == BlockComment
    requires !(i + 1 < |text| && text[i] == '*' && text[i + 1] == '/')
    ensures ModeAt(text, i + 1) == BlockComment && !KeptAt(text, i)
  {
  }

  /** The closing delimiter is dropped and code resumes after it. */
  lemma BlockCommentClose(text: string, i: nat)
    requires i + 1 < |text| && ModeAt(text, i) == BlockComment && text[i] == '*' && text[i + 1] == '/'
    ensures ModeAt(text, i + 2) == Code && !KeptAt(text, i) && !KeptAt(text, i + 1)
  {
    assert ModeAt(text, i + 1) == Skip(Code);
  }

  /** An opening delimiter is dropped, and the comment starts after it. */
  lemma CommentOpen(text: string, i: nat, flags: Mode)
    requires i + 1 < |text| && Agrees(ModeAt(text, i), flags, text[i]) && flags == Code
    requires text[i] == '/' && (text[i + 1] == '/' || text[i + 1] == '*')
    ensures ModeAt(text, i + 2) == (if text[i + 1] == '/' then LineComment else BlockComment)
    ensures !KeptAt(text, i) && !KeptAt(text, i + 1)
  {
    CommentStep(text, i, flags);
  }

  /** _strip_jsonc_comments */
  method StripJsoncComments(text: string) returns (result: string)
    ensures result == StripComments(text)
  {
    var out: string := [];
    var i := 0;
    var inStr := false;
    var escape := false;
    var n := |text|;
    while i < n
      invariant 0 <= i <= n + 2
      invariant out == StripPrefix(text, Min(i, n))
      invariant i < n ==> Agrees(ModeAt(text, i), FlagMode(inStr, escape), text[i])
      invariant !inStr ==> !escape
      decreases n - i
    {
      var c := text[i];
      CommentStep(text, i, FlagMode(inStr, escape));
      if inStr {
        out := out + [c];
        inStr, escape := StringChar(escape, c);
        i := i + 1;
        continue;
      }
      if c == '"' {
        inStr := true;
        out := out + [c];
        i := i + 1;
        continue;
      }
      if c == '/' && i + 1 < n {
        var nxt := text[i + 1];
        if nxt == '/' {
          CommentOpen(text, i, FlagMode(inStr, escape));
          i := SkipLineComment(text, i + 2);
          continue;
        }
        if nxt == '*' {
          CommentOpen(text, i, FlagMode(inStr, escape));
          i := SkipBlockComment(text, i + 2);
          continue;
        }
      }
      out := out + [c];
      i := i + 1;
    }
    result := out;
  }

  /** The inner loop over a line comment: it stops on the line break that
      ends the comment, or at the end of the text, and outputs nothing. */
  method SkipLineComment(text: string, start: nat) returns (i: nat)
    requires 2 <= start <= |text| && ModeAt(text, start) == LineComment
    requires !KeptAt(text, start - 2) && !KeptAt(text, start - 1)
    ensures start <= i <= |text| && ModeAt(text, i) == LineComment
    ensures i < |text| ==> IsLineBreak(text[i])
    ensures StripPrefix(text, i) == StripPrefix(text, start - 2)
  {
    i := start;
    while i < |text| && !IsLineBreak(text[i])
      invariant start <= i <= |text| && ModeAt(text, i) == LineComment
      invariant StripPrefix(text, i) == StripPrefix(text, start - 2)
    {
      LineCommentStep(text, i);
      i := i + 1;
    }
  }

  /** The inner loop over a block comment and the step over its closing
      delimiter: code resumes at the returned position, which may lie past
      the end when the comment is not closed; nothing is output. */
  method SkipBlockComment(text: string, start: nat) returns (i: nat)
    requires 2 <= start <= |text| && ModeAt(text, start) == BlockComment
    requires !KeptAt(text, start - 2) && !KeptAt(text, start - 1)
    ensures start + 2 <= i <= |text| + 2
    ensures i < |text| ==> ModeAt(text, i) == Code
    ensures StripPrefix(text, Min(i, |text|)) == StripPrefix(text, start - 2)
  {
    var n := |text|;
    i := start;
    while i + 1 < n && !(text[i] == '*' && text[i + 1] == '/')
      invariant start <= i <= n && ModeAt(text, i) == BlockComment
      invariant StripPrefix(text, i) == StripPrefix(text, start - 2)
    {
      BlockCommentStep(text, i);
      i := i + 1;
    }
    BlockCommentEnd(text, i);
    i := i + 2;
  }

  /** Where the inner loop of a block comment stops, the closing delimiter
      or the unclosed end is dropped too. */
  lemma BlockCommentEnd(text: string, i: nat)
    requires i <= |text| && ModeAt(text, i) == BlockComment
    requires i + 1 < |text| ==> text[i] == '*' && text[i + 1] == '/'
    ensures i + 2 < |text| ==> ModeAt(text, i + 2) == Code
    ensures StripPrefix(text, Min(i + 2, |text|)) == StripPrefix(text, i)
  {
    if i + 1 < |text| {
      BlockCommentClose(text, i);
      assert StripPrefix(text, i + 1) == StripPrefix(text, i);
    } else if i < |text| {
      BlockCommentStep(text, i);
    }
  }

  function Min(a: int, b: int): int {
    if a < b then a else b
  }

  // ---------------------------------------------------------------------
  // What the comment pass keeps

  function CommentMask(text: string): (mask: seq<bool>)
    ensures |mask| == |text|
  {
    seq(|text|, i requires 0 <= i < |text| => KeptAt(text, i))
  }

  lemma {:induction false} StripPrefixPick(text: string, k: nat)
    requires k <= |text|
    ensures StripPrefix(text, k) == Pick(text[..k], CommentMask(text)[..k])
    decreases k
  {
    if k > 0 {
      StripPrefixPick(text, k - 1);
      PickPrefixStep(text, CommentMask(text), k - 1);
    }
  }

  /** The output is the input with some characters deleted. */
  lemma StripCommentsSubseq(text: string)
    ensures IsSubseq(StripComments(text), text)
  {
    StripPrefixPick(text, |text|);
    assert text[..|text|] == text && CommentMask(text)[..|text|] == CommentMask(text);
  }

  /** Every character inside a string, escaped quotes included, is kept;
      so is the quote that opens a string. */
  lemma StringsKept(text: string, i: nat)
    requires i < |text|
    requires ModeAt(text, i).InString? || (ModeAt(text, i) == Code && text[i] == '"')
    ensures KeptAt(text, i)
  {
  }

  /** A backslash in a string escapes the next character: an escaped quote
      does not end the string. */
  lemma EscapedQuote(text: string, i: nat)
    requires i + 1 < |text| && ModeAt(text, i) == InString(false) && text[i] == '\\'
    ensures ModeAt(text, i + 1) == InString(true)
    ensures ModeAt(text, i + 2) == InString(false)
  {
    assert ModeAt(text, i + 2) == NextMode(ModeAt(text, i + 1), text[i + 1], Lookahead(text, i + 1));
  }

  /** After "//" in code nothing is output up to the next line break; the
      line break itself is kept and code resumes after it. */
  lemma {:induction false} LineCommentRemoved(text: string, i: nat, j: nat)
    requires i + 1 < |text| && ModeAt(text, i) == Code && text[i] == '/' && text[i + 1] == '/'
    requires i + 2 <= j <= |text|
    requires forall k :: i + 2 <= k < j ==> !IsLineBreak(text[k])
    ensures ModeAt(text, j) == LineComment
    ensures StripPrefix(text, j) == StripPrefix(text, i)
    ensures j < |text| && IsLineBreak(text[j]) ==> KeptAt(text, j) && ModeAt(text, j + 1) == Code
    decreases j
  {
    if j == i + 2 {
      CommentOpen(text, i, Code);
    } else {
      LineCommentRemoved(text, i, j - 1);
      LineCommentStep(text, j - 1);
    }
  }

  /** After a block comment opener in code ("/" then "*") with no closing
      delimiter later on, nothing more is output. */
  lemma {:induction false} UnterminatedBlockRemoved(text: string, i: nat, j: nat)
    requires i + 1 < |text| && ModeAt(text, i) == Code && text[i] == '/' && text[i + 1] == '*'
    requires i + 2 <= j <= |text|
    requires forall k :: i + 2 <= k < |text| - 1 ==> !(text[k] == '*' && text[k + 1] == '/')
    ensures ModeAt(text, j) == BlockComment
    ensures StripPrefix(text, j) == StripPrefix(text, i)
    decreases j
  {
    if j == i + 2 {
      CommentOpen(text, i, Code);
    } else {
      UnterminatedBlockRemoved(text, i, j - 1);
      BlockCommentStep(text, j - 1);
    }
  }

  /** So an unclosed block comment swallows the rest of the text. */
  lemma UnterminatedBlockOutput(text: string, i: nat)
    requires i + 1 < |text| && ModeAt(text, i) == Code && text[i] == '/' && text[i + 1] == '*'
    requires forall k :: i + 2 <= k < |text| - 1 ==> !(text[k] == '*' && text[k + 1] == '/')
    ensures StripComments(text) == StripPrefix(text, i)
  {
    UnterminatedBlockRemoved(text, i, |text|);
  }

  /** A "/" in code that starts no comment is kept. */
  lemma LoneSlashKept(text: string, i: nat)
    requires i < |text| && ModeAt(text, i) == Code && text[i] == '/'
    requires i + 1 == |text| || (text[i + 1] != '/' && text[i + 1] != '*')
    ensures KeptAt(text, i) && ModeAt(text, i + 1) == Code
  {
  }

  lemma {:induction false} NoSlashPrefix(text: string, k: nat)
    requires k <= |text| && forall m :: 0 <= m < |text| ==> text[m] != '/'
    ensures ModeAt(text, k).Code? || ModeAt(text, k).InString?
    ensures StripPrefix(text, k) == text[..k]
    decreases k
  {
    if k > 0 {
      NoSlashPrefix(text, k - 1);
      assert text[..k] == text[..k - 1] + [text[k - 1]];
    }
  }

  /** A text without a "/" has no comments: it passes unchanged. */
  lemma NoSlashUnchanged(text: string)
    requires forall m :: 0 <= m < |text| ==> text[m] != '/'
    ensures StripComments(text) == text
  {
    NoSlashPrefix(text, |text|);
  }

  // ---------------------------------------------------------------------
  // Trailing commas

  /** Strings only: the comma pass knows no comments. */
  function StringModeAt(text: string, i: nat): (m: Mode)
    requires i <= |text|
    ensures m == Code || m.InString?
    decreases i
  {
    if i == 0 then Code
    else match StringModeAt(text, i - 1)
      case InString(escaped) => StringStep(escaped, text[i - 1])
      case _ => if text[i - 1] == '"' then InString(false) else Code
  }

  /** The first position from j on that is not whitespace, or the end. */
  function NextNonSpace(text: string, j: nat): (r: nat)
    requires j <= |text|
    ensures j <= r <= |text|
    ensures forall k :: j <= k < r ==> IsSpace(text[k])
    ensures r == |text| || !IsSpace(text[r])
    decreases |text| - j
  {
    if j == |text| || !IsSpace(text[j]) then j else NextNonSpace(text, j + 1)
  }

  predicate IsCloser(c: char) {
    c == '}' || c == ']'
  }

  /** A comma in code whose next non-whitespace character closes an
      object or an array. */
  predicate IsTrailingComma(text: string, i: nat)
    requires i < |text|
  {
    && StringModeAt(text, i) == Code
    && text[i] == ','
    && var j := NextNonSpace(text, i + 1);
    && j < |text| && IsCloser(text[j])
  }

  /** What the comma pass outputs for the first k characters. */
  function CommaPrefix(text: string, k: nat): string
    requires k <= |text|
    decreases k
  {
    if k == 0 then [] else CommaPrefix(text, k - 1) + (if IsTrailingComma(text, k - 1) then [] else [text[k - 1]])
  }

  function RemoveCommas(text: string): string {
    CommaPrefix(text, |text|)
  }

  /** The look-ahead loop over whitespace after a comma. */
  method SkipSpace(text: string, start: nat) returns (j: nat)
    requires start <= |text|
    ensures j == NextNonSpace(text, start)
  {
    j := start;
    while j < |text| && IsSpace(text[j])
      invariant start <= j <= |text|
      invariant NextNonSpace(text, start) == NextNonSpace(text, j)
    {
      j := j + 1;
    }
  }

  /** A position the comma loop reaches acts as its flags say. */
  lemma CommaStep(text: string, i: nat, inStr: bool, escape: bool)
    requires i < |text| && StringModeAt(text, i) == FlagMode(inStr, escape)
    ensures StringModeAt(text, i + 1)
         == (if inStr then StringStep(escape, text[i]) else if text[i] == '"' then InString(false) else Code)
    ensures IsTrailingComma(text, i)
        <==> !inStr && text[i] == ',' && NextNonSpace(text, i + 1) < |text| && IsCloser(text[NextNonSpace(text, i + 1)])
  {
  }

  /** _remove_trailing_commas */
  method RemoveTrailingCommas(text: string) returns (result: string)
    ensures result == RemoveCommas(text)
  {
    var out: string := [];
    var i := 0;
    var inStr := false;
    var escape := false;
    var n := |text|;
    while i < n
      invariant 0 <= i <= n
      invariant out == CommaPrefix(text, i)
      invariant StringModeAt(text, i) == FlagMode(inStr, escape)
      invariant !inStr ==> !escape
    {
      var c := text[i];
      CommaStep(text, i, inStr, escape);
      if inStr {
        out := out + [c];
        inStr, escape := StringChar(escape, c);
        i := i + 1;
        continue;
      }
      if c == '"' {
        inStr := true;
        out := out + [c];
        i := i + 1;
        continue;
      }
      if c == ',' {
        var j := SkipSpace(text, i + 1);
        if j < n && IsCloser(text[j]) {
          i := i + 1;
          continue;
        }
      }
      out := out + [c];
      i := i + 1;
    }
    result := out;
  }

  // ---------------------------------------------------------------------
  // What the comma pass removes

  /** A comma in code is removed exactly when some closing brace or
      bracket follows it with only whitespace in between; every other
      character is kept. */
  lemma TrailingCommaIff(text: string, i: nat)
    requires i < |text|
    ensures IsTrailingComma(text, i) <==>
      && StringModeAt(text, i) == Code && text[i] == ','
      && exists j :: i < j < |text| && IsCloser(text[j]) && AllSpace(text[i + 1..j])
  {
    var r := NextNonSpace(text, i + 1);
    if r < |text| && IsCloser(text[r]) {
      assert AllSpace(text[i + 1..r]);
    }
    forall j | i < j < |text| && IsCloser(text[j]) && AllSpace(text[i + 1..j])
      ensures j == r
    {
      assert forall k :: i + 1 <= k < j ==> text[i + 1..j][k - i - 1] == text[k];
    }
  }

  /** A comma at the end of the text is kept. */
  lemma FinalCommaKept(text: string)
    requires text != [] && text[|text| - 1] == ','
    ensures !IsTrailingComma(text, |text| - 1)
  {
  }

  lemma {:induction false} NoCommaPrefix(text: string, k: nat)
    requires k <= |text| && forall m :: 0 <= m < |text| ==> text[m] != ','
    ensures CommaPrefix(text, k) == text[..k]
    decreases k
  {
    if k > 0 {
      NoCommaPrefix(text, k - 1);
      assert text[..k] == text[..k - 1] + [text[k - 1]];
    }
  }

  /** A text without a comma passes unchanged. */
  lemma NoCommaUnchanged(text: string)
    requires forall m :: 0 <= m < |text| ==> text[m] != ','
    ensures RemoveCommas(text) == text
  {
    NoCommaPrefix(text, |text|);
  }

  function CommaMask(text: string): (mask: seq<bool>)
    ensures |mask| == |text|
  {
    seq(|text|, i requires 0 <= i < |text| => !IsTrailingComma(text, i))
  }

  lemma {:induction false} CommaPrefixPick(text: string, k: nat)
    requires k <= |text|
    ensures CommaPrefix(text, k) == Pick(text[..k], CommaMask(text)[..k])
    decreases k
  {
    if k > 0 {
      CommaPrefixPick(text, k - 1);
      PickPrefixStep(text, CommaMask(text), k - 1);
    }
  }

  /** The output is the input with some commas deleted. */
  lemma RemoveCommasSubseq(text: string)
    ensures IsSubseq(RemoveCommas(text), text)
  {
    CommaPrefixPick(text, |text|);
    assert text[..|text|] == text && CommaMask(text)[..|text|] == CommaMask(text);
  }
}
