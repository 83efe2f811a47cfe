/** The `SourceLine` record: one physical line of a submitted file. */
module SourceLines {
  import opened Text

  /** A physical line: its 1-based number in the file and its content after comment and
      whitespace stripping. */
  datatype Line = Line(lineNumber: nat, content: string)

  /** A window of consecutive content lines, the unit of comparison. */
  type Chunk = seq<Line>

  /** `hasContent`: the trimmed content is non-empty. */
  predicate HasContent(l: Line) {
    Trim(l.content) != []
  }

  /** `equals`: two lines are equal when their contents are, whatever their numbers. */
  predicate SameContent(a: Line, b: Line) {
    a.content == b.content
  }

  /** Line numbers strictly increase along `ls`. */
  predicate Increasing(ls: seq<Line>) {
    forall i, j :: 0 <= i < j < |ls| ==> ls[i].lineNumber < ls[j].lineNumber
  }

  /** A stretch of lines with increasing numbers holds no line twice, and a line after
      the stretch is not in it. */
  lemma IncreasingSlice(w: seq<Line>, p: nat, q: nat)
    requires Increasing(w) && p <= q <= |w|
    ensures NoDuplicates(w[p..q])
    ensures q < |w| ==> w[q] !in w[p..q]
  {
    forall x, y | 0 <= x < y < q - p ensures w[p..q][x] != w[p..q][y] {
      assert w[p..q][x] == w[p + x] && w[p..q][y] == w[p + y];
    }
    if q < |w| {
      forall m | 0 <= m < q - p ensures w[p..q][m] != w[q] {
        assert w[p..q][m] == w[p + m];
      }
    }
  }
}
