// `#getContentLines` and `#chunkify` (CloneDetector.js:53-67): the lines that carry
// content, and the sliding windows of `k` consecutive content lines over them.
module Chunker {
  import opened Text
  import opened SourceLines

  // `#getContentLines`: the lines with content, in their order.
  function ContentLines(lines: seq<Line>): (r: seq<Line>)
    ensures |r| <= |lines|
    ensures forall l :: l in r <==> l in lines && HasContent(l)
  {
    if lines == [] then []
    else (if HasContent(lines[0]) then [lines[0]] else []) + ContentLines(lines[1..])
  }

  // Filtering keeps the order of the lines, so increasing line numbers stay increasing.
  lemma {:induction false} ContentLinesIncreasing(lines: seq<Line>)
    requires Increasing(lines)
    ensures Increasing(ContentLines(lines))
  {
    if lines != [] {
      var rest := ContentLines(lines[1..]);
      assert Increasing(lines[1..]);
      ContentLinesIncreasing(lines[1..]);
      forall l | l in rest ensures lines[0].lineNumber < l.lineNumber {
        var m :| 0 <= m < |lines[1..]| && lines[1..][m] == l;
        assert lines[1 + m] == l;
      }
    }
  }

  // The windows of `k` consecutive lines of `ls` that start at `i` or later.
  function WindowsFrom(ls: seq<Line>, k: nat, i: nat): seq<Chunk>
    decreases |ls| + 1 - i
  {
    if i + k > |ls| then [] else [ls[i..i + k]] + WindowsFrom(ls, k, i + 1)
  }

  // The number of windows: max(0, n - k + 1).
  function WindowCount(n: nat, k: nat): nat {
    if n >= k then n - k + 1 else 0
  }

  // Window `j` starts at line `i + j`; there are max(0, n - i - k + 1) of them.
  lemma {:induction false} WindowsFromShape(ls: seq<Line>, k: nat, i: nat)
    requires i <= |ls| + 1
    ensures |WindowsFrom(ls, k, i)| == if i + k <= |ls| then |ls| - i - k + 1 else 0
    ensures forall j :: 0 <= j < |WindowsFrom(ls, k, i)| ==> WindowsFrom(ls, k, i)[j] == ls[i + j..i + j + k]
    decreases |ls| + 1 - i
  {
    if i + k <= |ls| {
      WindowsFromShape(ls, k, i + 1);
    }
  }

  // What `#chunkify` stores in `file.chunks` for the lines `lines`.
  function Chunks(lines: seq<Line>, k: nat): seq<Chunk> {
    WindowsFrom(ContentLines(lines), k, 0)
  }

  // `#chunkify`: with n content lines, max(0, n - k + 1) chunks, chunk i holding content
  // lines i to i + k - 1.
  method Chunkify(lines: seq<Line>, k: nat) returns (chunks: seq<Chunk>)
    ensures chunks == Chunks(lines, k)
    ensures |chunks| == WindowCount(|ContentLines(lines)|, k)
    ensures forall i :: 0 <= i < |chunks| ==> chunks[i] == ContentLines(lines)[i..i + k]
  {
    var content := ContentLines(lines);
    chunks := [];
    var i := 0;
    while i + k <= |content|
      invariant i <= |content| + 1
      invariant i <= WindowCount(|content|, k)
      invariant |chunks| == i
      invariant forall j :: 0 <= j < i ==> chunks[j] == content[j..j + k]
    {
      chunks := chunks + [content[i..i + k]];
      i := i + 1;
    }
    WindowsFromShape(content, k, 0);
  }

  // Every line of every chunk has content.
  lemma ChunkLinesHaveContent(lines: seq<Line>, k: nat)
    ensures forall c, l :: c in Chunks(lines, k) && l in c ==> HasContent(l)
  {
    var content := ContentLines(lines);
    WindowsFromShape(content, k, 0);
    forall c, l | c in Chunks(lines, k) && l in c ensures HasContent(l) {
      var j :| 0 <= j < |Chunks(lines, k)| && Chunks(lines, k)[j] == c;
      var m :| 0 <= m < |c| && c[m] == l;
      assert l == content[j + m];
    }
  }

  // Fewer content lines than the chunk size give no chunk at all.
  lemma NoChunksWhenShort(lines: seq<Line>, k: nat)
    requires |ContentLines(lines)| < k
    ensures Chunks(lines, k) == []
  {
  }

  // Every chunk has exactly `k` lines.
  lemma ChunkSizes(lines: seq<Line>, k: nat)
    ensures forall c :: c in Chunks(lines, k) ==> |c| == k
  {
    WindowsFromShape(ContentLines(lines), k, 0);
  }
}


