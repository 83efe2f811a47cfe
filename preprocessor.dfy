// The line filter `#filterLines` (CloneDetector.js:21-51): one forward pass over the
// newline-separated pieces of a file, carrying an in-comment flag, that yields one
// numbered, stripped and trimmed line per piece.
//
// The pass is defined over any per-line step; the detector's step is `ProcessLine`. The
// facts about the pass (how the flag travels, which piece each line comes from) are
// proved once for every step, and then instantiated with the properties of
// `ProcessLine` proved in `Comments`.
module Preprocessor {
  import opened Text
  import opened SourceLines
  import opened Comments

  // One iteration of the line loop: from a piece and the current in-comment flag, the
  // rewritten piece (before trimming) and the new flag.
  type LineStep = (string, bool) -> (string, bool)

  // The in-comment flag after the first `n` pieces.
  function FlagAfter(step: LineStep, pieces: seq<string>, n: nat): bool
    requires n <= |pieces|
  {
    if n == 0 then false else step(pieces[n - 1], FlagAfter(step, pieces, n - 1)).1
  }

  // The line pushed for piece `i`: numbered from 1, processed with the flag the pieces
  // before it left behind, then trimmed.
  function LineAt(step: LineStep, pieces: seq<string>, i: nat): Line
    requires i < |pieces|
  {
    Line(i + 1, Trim(step(pieces[i], FlagAfter(step, pieces, i)).0))
  }

  // The lines pushed for the first `n` pieces.
  function Filtered(step: LineStep, pieces: seq<string>, n: nat): (r: seq<Line>)
    requires n <= |pieces|
    ensures |r| == n
  {
    if n == 0 then [] else Filtered(step, pieces, n - 1) + [LineAt(step, pieces, n - 1)]
  }

  // What `#filterLines` stores in `file.lines` for the text `contents`.
  function Preprocessed(contents: string): seq<Line> {
    Filtered(ProcessLine, Split(contents), |Split(contents)|)
  }

  // The body of the line loop of `#filterLines` (CloneDetector.js:27-45), statement by
  // statement, on one piece and the current flag.
  method FilterLine(piece: string, inComment: bool) returns (line: string, inMultiLineComment: bool)
    ensures (line, inMultiLineComment) == ProcessLine(piece, inComment)
  {
    line := piece;
    inMultiLineComment := inComment;
    if inMultiLineComment {
      match CloserEnd(line) {
        case Some(e) =>
          line := line[e..];
          inMultiLineComment := false;
        case None =>
          line := "";
      }
    }
    assert (line, inMultiLineComment) == LeaveComment(piece, inComment);
    line := StripBlank(line);
    line := StripLineComment(line);
    line := StripInlineBlock(line);
    match FirstOpener(line, 0) {
      case Some(k) =>
        line := line[..k];
        inMultiLineComment := true;
      case None =>
    }
  }

  // `#filterLines`: one line per newline-separated piece, pushed in order.
  method FilterLines(contents: string) returns (lines: seq<Line>)
    ensures lines == Preprocessed(contents)
  {
    var pieces := Split(contents);
    var inMultiLineComment := false;
    lines := [];
    var i := 0;
    while i < |pieces|
      invariant 0 <= i <= |pieces|
      invariant inMultiLineComment == FlagAfter(ProcessLine, pieces, i)
      invariant lines == Filtered(ProcessLine, pieces, i)
    {
      var line;
      line, inMultiLineComment := FilterLine(pieces[i], inMultiLineComment);
      lines := lines + [Line(i + 1, Trim(line))];
      i := i + 1;
    }
  }

  // Line `i` of the pass comes from piece `i`.
  lemma {:induction false} FilteredAt(step: LineStep, pieces: seq<string>, n: nat, i: nat)
    requires i < n <= |pieces|
    ensures Filtered(step, pieces, n)[i] == LineAt(step, pieces, i)
  {
    if i < n - 1 {
      FilteredAt(step, pieces, n - 1, i);
    }
  }

  // One line per newline-separated piece, numbered from 1, with trimmed content.
  lemma {:induction false} FilteredShape(step: LineStep, pieces: seq<string>, n: nat)
    requires n <= |pieces|
    ensures forall i :: 0 <= i < n ==>
      Filtered(step, pieces, n)[i].lineNumber == i + 1 && IsTrimmed(Filtered(step, pieces, n)[i].content)
  {
    if n > 0 {
      FilteredShape(step, pieces, n - 1);
    }
  }

  lemma PreprocessedShape(contents: string)
    ensures |Preprocessed(contents)| == |Split(contents)|
    ensures forall i :: 0 <= i < |Preprocessed(contents)| ==>
      Preprocessed(contents)[i].lineNumber == i + 1 && IsTrimmed(Preprocessed(contents)[i].content)
  {
    FilteredShape(ProcessLine, Split(contents), |Split(contents)|);
  }

  // Outside comments, pieces whose step never sets the flag leave it off.
  lemma {:induction false} StaysOff(step: LineStep, pieces: seq<string>, n: nat)
    requires n <= |pieces|
    requires forall i :: 0 <= i < n ==> !step(pieces[i], false).1
    ensures !FlagAfter(step, pieces, n)
  {
    if n > 0 {
      StaysOff(step, pieces, n - 1);
    }
  }

  // Once the flag is on after piece `i`, pieces the step blanks inside a comment come out
  // empty and leave the flag on.
  lemma {:induction false} BlankRun(step: LineStep, pieces: seq<string>, i: nat, m: nat)
    requires i < m <= |pieces|
    requires FlagAfter(step, pieces, i + 1)
    requires forall j :: i < j < m ==> step(pieces[j], true) == ("", true)
    ensures FlagAfter(step, pieces, m)
    ensures forall j :: i < j < m ==> Filtered(step, pieces, |pieces|)[j].content == ""
  {
    if m > i + 1 {
      BlankRun(step, pieces, i, m - 1);
      FilteredAt(step, pieces, |pieces|, m - 1);
    }
  }

  predicate Plain(piece: string) {
    !Contains(piece, "//") && !Contains(piece, "/*")
  }

  // A file without `//` or `/*` keeps every line's trimmed text under its own number.
  lemma PlainFileKept(contents: string)
    requires forall i :: 0 <= i < |Split(contents)| ==> Plain(Split(contents)[i])
    ensures |Preprocessed(contents)| == |Split(contents)|
    ensures forall i :: 0 <= i < |Split(contents)| ==>
      Preprocessed(contents)[i] == Line(i + 1, Trim(Split(contents)[i]))
  {
    var pieces := Split(contents);
    forall i | 0 <= i < |pieces| ensures !ProcessLine(pieces[i], false).1 {
      PlainLineKept(pieces[i]);
    }
    forall i | 0 <= i < |pieces|
      ensures Preprocessed(contents)[i] == Line(i + 1, Trim(pieces[i]))
    {
      FilteredAt(ProcessLine, pieces, |pieces|, i);
      StaysOff(ProcessLine, pieces, i);
      PlainLineKept(pieces[i]);
    }
  }

  // The contents of the lines, in order.
  function Texts(lines: seq<Line>): (r: seq<string>)
    ensures |r| == |lines|
    ensures forall i :: 0 <= i < |lines| ==> r[i] == lines[i].content
  {
    if lines == [] then [] else [lines[0].content] + Texts(lines[1..])
  }

  // Round trip: for a file with no comment markers and no surrounding whitespace on any
  // line, the line contents joined by newlines give back the file verbatim.
  lemma PlainTrimmedFileRoundTrip(contents: string)
    requires forall i :: 0 <= i < |Split(contents)| ==> Plain(Split(contents)[i])
    requires forall i :: 0 <= i < |Split(contents)| ==> IsTrimmed(Split(contents)[i])
    ensures Join(Texts(Preprocessed(contents))) == contents
  {
    PlainFileKept(contents);
    assert Texts(Preprocessed(contents)) == Split(contents);
  }

  // A piece of code ending in an unterminated `/*` keeps its code and switches comment
  // mode on.
  lemma OpenerLine(contents: string, i: nat, code: string, rest: string)
    requires i < |Split(contents)|
    requires !FlagAfter(ProcessLine, Split(contents), i)
    requires Split(contents)[i] == code + "/*" + rest && NoMarkers(code) && NoStarOrSlash(rest)
    ensures FlagAfter(ProcessLine, Split(contents), i + 1)
    ensures Preprocessed(contents)[i].content == Trim(code)
  {
    OpenerEntersComment(code, rest);
    FilteredAt(ProcessLine, Split(contents), |Split(contents)|, i);
  }

  // Inside a comment, the pieces that do not start with a closing run at column 0 come
  // out empty, and the comment goes on.
  lemma CommentBody(contents: string, i: nat, m: nat)
    requires i < m <= |Split(contents)|
    requires FlagAfter(ProcessLine, Split(contents), i + 1)
    requires forall j :: i < j < m ==> CloserEnd(Split(contents)[j]) == None
    ensures FlagAfter(ProcessLine, Split(contents), m)
    ensures forall j :: i < j < m ==> Preprocessed(contents)[j].content == ""
  {
    var pieces := Split(contents);
    forall j | i < j < m ensures ProcessLine(pieces[j], true) == ("", true) {
      CommentLineBlanked(pieces[j]);
    }
    BlankRun(ProcessLine, pieces, i, m);
  }

  // Inside a comment, the piece that starts with a closing run is processed as an
  // ordinary piece made of what follows the run.
  lemma ClosingPiece(contents: string, m: nat)
    requires m < |Split(contents)|
    requires FlagAfter(ProcessLine, Split(contents), m)
    requires CloserEnd(Split(contents)[m]).Some?
    ensures Preprocessed(contents)[m].content
         == Trim(ProcessLine(Split(contents)[m][CloserEnd(Split(contents)[m]).value..], false).0)
  {
    FilteredAt(ProcessLine, Split(contents), |Split(contents)|, m);
    ClosingLine(Split(contents)[m]);
  }
}


