// The five textual rewrites of the line filter, each written out as a string function
// standing for the regular expression the detector applies (CloneDetector.js:1-5),
// and one step of the line loop that combines them. The search functions state only
// their bounds in their contracts; what they find is stated by the lemmas after them.
module Comments {
  import opened Text

  // The first index at or after `from` where `pat` occurs.
  function FindFrom(s: string, pat: string, from: nat): (r: Option<nat>)
    ensures r.Some? ==> from <= r.value && At(s, r.value, pat)
    decreases |s| - from
  {
    if from + |pat| > |s| then None
    else if At(s, from, pat) then Some(from)
    else FindFrom(s, pat, from + 1)
  }

  // Nothing before the index found, and nowhere at all when nothing is found, matches.
  lemma {:induction false} FindFromIsFirst(s: string, pat: string, from: nat)
    ensures forall j: nat ::
      (from <= j && (FindFrom(s, pat, from).None? || j < FindFrom(s, pat, from).value)) ==> !At(s, j, pat)
    decreases |s| - from
  {
    if from + |pat| <= |s| && !At(s, from, pat) {
      FindFromIsFirst(s, pat, from + 1);
    }
  }

  // The first line terminator at or after `from`, or the end of `s`.
  function NextTerminator(s: string, from: nat): (k: nat)
    requires from <= |s|
    ensures from <= k <= |s|
    decreases |s| - from
  {
    if from == |s| || IsLineTerminator(s[from]) then from
    else NextTerminator(s, from + 1)
  }

  // `/^\s*$/` replaced by "": a line of whitespace only becomes empty.
  function StripBlank(s: string): string {
    if AllWhitespace(s) then "" else s
  }

  // `/\/\/.*/` replaced by "": deletes from the first `//` up to the next line
  // terminator (a `.` stops there).
  function StripLineComment(s: string): string {
    match FindFrom(s, "//", 0)
    case None => s
    case Some(i) => s[..i] + s[NextTerminator(s, i + 2)..]
  }

  // The end of a match of `/\/\*.*?\*\//` that starts at `i`: just past the nearest `*/`
  // after the opening `/*`, provided no line terminator comes between them.
  function InlineBlockEnd(s: string, i: nat): (r: Option<nat>)
    ensures r.Some? ==> At(s, i, "/*") && i + 4 <= r.value <= |s|
  {
    if !At(s, i, "/*") then None
    else match FindFrom(s, "*/", i + 2)
      case None => None
      case Some(j) => if NextTerminator(s, i + 2) >= j then Some(j + 2) else None
  }

  // The leftmost match of `/\/\*.*?\*\//` at or after `from`, as (start, end).
  function FirstInlineBlock(s: string, from: nat): (r: Option<(nat, nat)>)
    ensures r.Some? ==> from <= r.value.0 && r.value.0 + 4 <= r.value.1 <= |s|
    decreases |s| - from
  {
    if from >= |s| then None
    else match InlineBlockEnd(s, from)
      case Some(e) => Some((from, e))
      case None => FirstInlineBlock(s, from + 1)
  }

  // `/\/\*.*?\*\//` replaced by "": deletes the first one-line block comment.
  function StripInlineBlock(s: string): string {
    match FirstInlineBlock(s, 0)
    case None => s
    case Some((i, e)) => s[..i] + s[e..]
  }

  // Searching from `from` finds `k` when `pat` is at `k` and nowhere between.
  lemma {:induction false} FindFromAt(s: string, pat: string, from: nat, k: nat)
    requires from <= k && At(s, k, pat)
    requires forall j: nat :: from <= j < k ==> !At(s, j, pat)
    ensures FindFrom(s, pat, from) == Some(k)
    decreases k - from
  {
    if from < k {
      FindFromAt(s, pat, from + 1, k);
    }
  }

  // With no line terminator in `s[from..j]`, the next one is at `j` or later.
  lemma {:induction false} NextTerminatorPast(s: string, from: nat, j: nat)
    requires from <= j <= |s|
    requires forall m :: from <= m < j ==> !IsLineTerminator(s[m])
    ensures NextTerminator(s, from) >= j
    decreases j - from
  {
    if from < j {
      NextTerminatorPast(s, from + 1, j);
    }
  }

  // The opening `/*` or `//` right after `a` is the first occurrence in `a + pat + b`,
  // provided `a` holds none and does not end in the slash that would start one.
  lemma FirstAfter(a: string, pat: string, b: string)
    requires |pat| == 2 && pat[0] == '/' && !Contains(a, pat) && (a == [] || a[|a| - 1] != '/')
    ensures FindFrom(a + pat + b, pat, 0) == Some(|a|)
  {
    var s := a + pat + b;
    forall j: nat | j < |a| ensures !At(s, j, pat) {
      if j + 2 <= |a| {
        assert s[j..j + 2] == a[j..j + 2] && !At(a, j, pat);
      } else {
        assert s[j] == a[|a| - 1];
      }
    }
    assert s[|a|..|a| + 2] == pat;
    FindFromAt(s, pat, 0, |a|);
  }

  // A `//` comment that runs to the end of the line is removed with nothing left of it.
  lemma LineCommentRemoved(a: string, b: string)
    requires !Contains(a, "//") && (a == [] || a[|a| - 1] != '/')
    requires forall m :: 0 <= m < |b| ==> !IsLineTerminator(b[m])
    ensures StripLineComment(a + "//" + b) == a
  {
    var s := a + "//" + b;
    FirstAfter(a, "//", b);
    forall m | |a| + 2 <= m < |s| ensures !IsLineTerminator(s[m]) {
      assert s[m] == b[m - |a| - 2];
    }
    NextTerminatorPast(s, |a| + 2, |s|);
    assert s[..|a|] == a;
  }

  // The first `*/` at or after the end of `p` in `p + b + "*/" + c` is the one after
  // `b`, provided `b` holds none and does not end in the star that would start one.
  lemma CloseAfter(p: string, b: string, c: string)
    requires !Contains(b, "*/") && (b == [] || b[|b| - 1] != '*')
    ensures FindFrom(p + b + "*/" + c, "*/", |p|) == Some(|p| + |b|)
  {
    var s := p + b + "*/" + c;
    var e := |p| + |b|;
    forall j: nat | |p| <= j < e ensures !At(s, j, "*/") {
      if j + 2 <= e {
        assert s[j..j + 2] == b[j - |p|..j - |p| + 2] && !At(b, j - |p|, "*/");
      } else {
        assert s[j] == b[|b| - 1];
      }
    }
    assert s[e..e + 2] == "*/";
    FindFromAt(s, "*/", |p|, e);
  }

  // A one-line block comment `/* b */` is removed and the text on both sides is joined,
  // provided nothing before it opens a comment and `b` neither closes one nor breaks
  // the line.
  lemma InlineBlockRemoved(a: string, b: string, c: string)
    requires !Contains(a, "/*") && (a == [] || a[|a| - 1] != '/')
    requires !Contains(b, "*/") && (b == [] || b[|b| - 1] != '*')
    requires forall m :: 0 <= m < |b| ==> !IsLineTerminator(b[m])
    ensures StripInlineBlock(a + "/*" + b + "*/" + c) == a + c
  {
    var s := a + "/*" + b + "*/" + c;
    var e := |a| + 2 + |b|;
    assert s == a + "/*" + (b + "*/" + c);
    FirstAfter(a, "/*", b + "*/" + c);
    FindFromIsFirst(s, "/*", 0);
    InlineBlockAfter(a + "/*", b, c);
    FirstInlineBlockAt(s, 0, |a|);
    assert s[..|a|] == a && s[e + 2..] == c;
  }

  // The block comment opened just before `b` ends just past the `*/` after `b`.
  lemma InlineBlockAfter(p: string, b: string, c: string)
    requires |p| >= 2 && p[|p| - 2..] == "/*"
    requires !Contains(b, "*/") && (b == [] || b[|b| - 1] != '*')
    requires forall m :: 0 <= m < |b| ==> !IsLineTerminator(b[m])
    ensures InlineBlockEnd(p + b + "*/" + c, |p| - 2) == Some(|p| + |b| + 2)
  {
    var s := p + b + "*/" + c;
    assert s[|p| - 2..|p|] == "/*";
    CloseAfter(p, b, c);
    forall m | |p| <= m < |p| + |b| ensures !IsLineTerminator(s[m]) {
      assert s[m] == b[m - |p|];
    }
    NextTerminatorPast(s, |p|, |p| + |b|);
  }

  // Scanning from `from` finds the block comment at `k` when no `/*` comes between.
  lemma {:induction false} FirstInlineBlockAt(s: string, from: nat, k: nat)
    requires from <= k && InlineBlockEnd(s, k).Some?
    requires forall j: nat :: from <= j < k ==> !At(s, j, "/*")
    ensures FirstInlineBlock(s, from) == Some((k, InlineBlockEnd(s, k).value))
    decreases k - from
  {
    if from < k {
      FirstInlineBlockAt(s, from + 1, k);
    }
  }

  // The end of the run of `*` that starts at `j`.
  function StarRunEnd(s: string, j: nat): (k: nat)
    requires j <= |s|
    ensures j <= k <= |s|
    decreases |s| - j
  {
    if j == |s| || s[j] != '*' then j else StarRunEnd(s, j + 1)
  }

  predicate NoStarOrSlash(s: string) {
    forall m :: 0 <= m < |s| ==> s[m] != '*' && s[m] != '/'
  }

  // `/\/\*+[^*\/]*$/` matches at `i`: a slash, a run of stars, then characters other than
  // `*` and `/` up to the end ([^...] also takes line terminators). The run of stars is
  // taken whole, since giving any star back would leave a `*` in the tail.
  predicate OpenerAt(s: string, i: nat) {
    i + 1 < |s| && s[i] == '/' && s[i + 1] == '*' && NoStarOrSlash(s[StarRunEnd(s, i + 1)..])
  }

  // The leftmost index at or after `from` where the opener matches.
  function FirstOpener(s: string, from: nat): (r: Option<nat>)
    ensures r.Some? ==> from <= r.value < |s| && OpenerAt(s, r.value)
    decreases |s| - from
  {
    if from >= |s| then None
    else if OpenerAt(s, from) then Some(from)
    else FirstOpener(s, from + 1)
  }

  predicate IsMarker(c: char) {
    c == '*' || c == '/'
  }

  // The end of the run of `*` and `/` characters that starts at `j`.
  function MarkerRunEnd(s: string, j: nat): (k: nat)
    requires j <= |s|
    ensures j <= k <= |s|
    decreases |s| - j
  {
    if j == |s| || !IsMarker(s[j]) then j else MarkerRunEnd(s, j + 1)
  }

  // The run is made of markers and stops at the first character that is not one.
  lemma {:induction false} MarkerRunEndIsRun(s: string, j: nat)
    requires j <= |s|
    ensures forall m :: j <= m < MarkerRunEnd(s, j) ==> IsMarker(s[m])
    ensures MarkerRunEnd(s, j) < |s| ==> !IsMarker(s[MarkerRunEnd(s, j)])
    decreases |s| - j
  {
    if j < |s| && IsMarker(s[j]) {
      MarkerRunEndIsRun(s, j + 1);
    }
  }

  // `*/` stands just before index `e`.
  predicate ClosesAt(s: string, e: nat) {
    2 <= e <= |s| && s[e - 2] == '*' && s[e - 1] == '/'
  }

  // The largest `e <= k` with `*/` just before `e`.
  function LastCloseUpTo(s: string, k: nat): (r: Option<nat>)
    requires k <= |s|
    ensures r.Some? ==> r.value <= k && ClosesAt(s, r.value)
    decreases k
  {
    if k < 2 then None
    else if ClosesAt(s, k) then Some(k)
    else LastCloseUpTo(s, k - 1)
  }

  // No `*/` ends after the one found, up to `k`; none at all when nothing is found.
  lemma {:induction false} LastCloseUpToIsLast(s: string, k: nat)
    requires k <= |s|
    ensures forall e: nat ::
      (e <= k && (LastCloseUpTo(s, k).None? || LastCloseUpTo(s, k).value < e)) ==> !ClosesAt(s, e)
    decreases k
  {
    if k >= 2 && !ClosesAt(s, k) {
      LastCloseUpToIsLast(s, k - 1);
    }
  }

  // The end of the match of `/^[\*\/]*\*+\//`, which is anchored at column 0: the greedy
  // `[\*\/]*` takes the whole leading run of `*` and `/` and gives characters back until
  // `\*+\/` fits, so the match ends just past the LAST `*/` of that run.
  function CloserEnd(s: string): Option<nat> {
    LastCloseUpTo(s, MarkerRunEnd(s, 0))
  }

  // A prefix the closing pattern can match: made of `*` and `/` only, ending in `*/`.
  predicate CloserShaped(s: string, e: nat) {
    ClosesAt(s, e) && forall m :: 0 <= m < e ==> IsMarker(s[m])
  }

  // CloserEnd finds the longest prefix the closing pattern can match, and finds nothing
  // exactly when no prefix can match.
  lemma CloserEndIsLongestMatch(s: string)
    ensures CloserEnd(s).Some? ==> CloserShaped(s, CloserEnd(s).value)
    ensures forall e: nat :: CloserShaped(s, e) ==> CloserEnd(s).Some? && e <= CloserEnd(s).value
  {
    var k := MarkerRunEnd(s, 0);
    MarkerRunEndIsRun(s, 0);
    LastCloseUpToIsLast(s, k);
    forall e: nat | CloserShaped(s, e)
      ensures CloserEnd(s).Some? && e <= CloserEnd(s).value
    {
      assert e <= k;
    }
  }

  // A line that does not start with `*` or `/` (an indented `*/`, say) never closes a comment.
  lemma CloserNeedsColumnZero(s: string)
    requires s == [] || !IsMarker(s[0])
    ensures CloserEnd(s) == None
  {
  }

  // The first statement of the line loop (CloneDetector.js:29-36): inside a comment, the
  // closing run is removed and the flag cleared, or, without one, the whole line is blanked.
  function LeaveComment(line: string, inComment: bool): (string, bool) {
    if !inComment then (line, false)
    else match CloserEnd(line)
      case Some(e) => (line[e..], false)
      case None => ("", true)
  }

  // The three rewrites that follow (CloneDetector.js:38-40), in that order.
  function Stripped(line: string): string {
    StripInlineBlock(StripLineComment(StripBlank(line)))
  }

  // The last statement (CloneDetector.js:42-45): an opener left on the line is cut off and
  // sets the flag.
  function EnterComment(line: string, inComment: bool): (string, bool) {
    match FirstOpener(line, 0)
    case Some(i) => (line[..i], true)
    case None => (line, inComment)
  }

  // One iteration of the line loop: the rewritten line, before trimming, and the new
  // value of the in-comment flag.
  function ProcessLine(line: string, inComment: bool): (string, bool) {
    var left := LeaveComment(line, inComment);
    EnterComment(Stripped(left.0), left.1)
  }

  lemma {:induction false} NoSlashStarNoOpener(s: string, from: nat)
    requires !Contains(s, "/*")
    ensures FirstOpener(s, from) == None
    decreases |s| - from
  {
    if from < |s| {
      assert !At(s, from, "/*");
      NoSlashStarNoOpener(s, from + 1);
    }
  }

  lemma {:induction false} NoSlashStarNoInlineBlock(s: string, from: nat)
    requires !Contains(s, "/*")
    ensures FirstInlineBlock(s, from) == None
    decreases |s| - from
  {
    if from < |s| {
      assert !At(s, from, "/*");
      NoSlashStarNoInlineBlock(s, from + 1);
    }
  }

  lemma {:induction false} NoSlashSlashNotFound(s: string, from: nat)
    requires !Contains(s, "//")
    ensures FindFrom(s, "//", from) == None
    decreases |s| - from
  {
    if from + 2 <= |s| {
      assert !At(s, from, "//");
      NoSlashSlashNotFound(s, from + 1);
    }
  }

  // Outside a comment, a line holding neither `//` nor `/*` keeps its text: it comes out
  // empty exactly when it is blank, and unchanged otherwise, so its trimmed form is kept.
  lemma PlainLineKept(s: string)
    requires !Contains(s, "//") && !Contains(s, "/*")
    ensures ProcessLine(s, false) == (StripBlank(s), false)
    ensures Trim(ProcessLine(s, false).0) == Trim(s)
  {
    var b := StripBlank(s);
    if AllWhitespace(s) {
      assert b == "";
      TrimEmptyIffBlank(s);
    } else {
      NoSlashSlashNotFound(s, 0);
      NoSlashStarNoInlineBlock(s, 0);
      NoSlashStarNoOpener(s, 0);
    }
  }

  // Inside a comment, a line that does not start with a closing run is blanked and the
  // comment goes on.
  lemma CommentLineBlanked(s: string)
    requires CloserEnd(s) == None
    ensures ProcessLine(s, true) == ("", true)
  {
    assert StripBlank("") == "";
    assert FindFrom("", "//", 0) == None;
    assert FirstInlineBlock("", 0) == None;
    assert FirstOpener("", 0) == None;
  }

  // Inside a comment, a line that starts with a closing run continues as an ordinary
  // line made of what follows the run.
  lemma ClosingLine(s: string)
    requires CloserEnd(s).Some?
    ensures ProcessLine(s, true) == ProcessLine(s[CloserEnd(s).value..], false)
  {
  }

  predicate NoMarkers(s: string) {
    forall m :: 0 <= m < |s| ==> !IsMarker(s[m])
  }

  // The only `*` or `/` characters of `s` are the `/*` at `n`.
  predicate OnlyOpenerMarkersAt(s: string, n: nat) {
    n + 1 < |s| && s[n] == '/' && s[n + 1] == '*'
    && forall m :: 0 <= m < |s| && m != n && m != n + 1 ==> !IsMarker(s[m])
  }

  lemma LoneOpenerNoLineComment(s: string, n: nat)
    requires OnlyOpenerMarkersAt(s, n)
    ensures StripLineComment(s) == s
  {
    forall j: nat | j <= |s| ensures !At(s, j, "//") {
      if j + 2 <= |s| {
        assert s[j..j + 2][0] == s[j] && s[j..j + 2][1] == s[j + 1];
      }
    }
    NoSlashSlashNotFound(s, 0);
  }

  lemma {:induction false} NoInlineBlockFrom(s: string, n: nat, from: nat)
    requires OnlyOpenerMarkersAt(s, n)
    ensures FirstInlineBlock(s, from) == None
    decreases |s| - from
  {
    if from < |s| {
      if from == n {
        forall j: nat | n + 2 <= j ensures !At(s, j, "*/") {
          if j + 2 <= |s| {
            assert s[j..j + 2][0] == s[j];
          }
        }
        FindFromIsFirst(s, "*/", n + 2);
      } else {
        assert !At(s, from, "/*") by {
          if from + 2 <= |s| { assert s[from..from + 2][0] == s[from]; }
        }
      }
      NoInlineBlockFrom(s, n, from + 1);
    }
  }

  lemma LoneOpenerFound(s: string, n: nat)
    requires OnlyOpenerMarkersAt(s, n)
    ensures FirstOpener(s, 0) == Some(n)
  {
    assert StarRunEnd(s, n + 2) == n + 2;
    assert StarRunEnd(s, n + 1) == n + 2;
    assert OpenerAt(s, n);
    OpenerNotBefore(s, n, 0);
  }

  lemma {:induction false} OpenerNotBefore(s: string, n: nat, from: nat)
    requires OnlyOpenerMarkersAt(s, n) && OpenerAt(s, n) && from <= n
    ensures FirstOpener(s, from) == Some(n)
    decreases n - from
  {
    if from < n {
      assert !IsMarker(s[from]);
      OpenerNotBefore(s, n, from + 1);
    }
  }

  // Outside a comment, code followed by an unterminated `/*` keeps the code and enters
  // comment mode.
  lemma OpenerEntersComment(code: string, rest: string)
    requires NoMarkers(code) && NoStarOrSlash(rest)
    ensures ProcessLine(code + "/*" + rest, false) == (code, true)
  {
    var s := code + "/*" + rest;
    var n := |code|;
    forall m | 0 <= m < |s| && m != n && m != n + 1 ensures !IsMarker(s[m]) {
      if m < n { assert s[m] == code[m]; } else { assert s[m] == rest[m - n - 2]; }
    }
    assert OnlyOpenerMarkersAt(s, n);
    assert StripBlank(s) == s by { assert !IsWhitespace(s[n]); }
    LoneOpenerNoLineComment(s, n);
    assert StripInlineBlock(s) == s by { NoInlineBlockFrom(s, n, 0); }
    LoneOpenerFound(s, n);
    assert s[..n] == code;
  }
}


