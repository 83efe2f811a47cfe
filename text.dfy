/** String and sequence helpers standing for the JavaScript built-ins the detector
    relies on: the `\s` class and `String.prototype.trim`, `String.prototype.split("\n")`,
    `startsWith`/`endsWith`-style tests, and de-duplication through a `Set`
    (which keeps the first occurrence of every element, in order). */
module Text {

  datatype Option<T> = None | Some(value: T)

  /** The characters JavaScript's `\s` matches and `trim` removes
      (WhiteSpace and LineTerminator of ECMAScript). */
  predicate IsWhitespace(c: char) {
    c == ' ' || c == '\t' || c == '\n' || c == '\r' || c == '\U{000B}' || c == '\U{000C}'
    || c == '\U{00A0}' || c == '\U{1680}' || ('\U{2000}' <= c <= '\U{200A}')
    || c == '\U{2028}' || c == '\U{2029}' || c == '\U{202F}' || c == '\U{205F}'
    || c == '\U{3000}' || c == '\U{FEFF}'
  }

  /** The characters a regular-expression `.` does not match. */
  predicate IsLineTerminator(c: char) {
    c == '\n' || c == '\r' || c == '\U{2028}' || c == '\U{2029}'
  }

  predicate AllWhitespace(s: string) {
    forall i :: 0 <= i < |s| ==> IsWhitespace(s[i])
  }

  /** Neither end of `s` is a whitespace character. */
  predicate IsTrimmed(s: string) {
    s == [] || (!IsWhitespace(s[0]) && !IsWhitespace(s[|s| - 1]))
  }

  /** `pat` occurs in `s` at index `i`. */
  predicate At(s: string, i: nat, pat: string) {
    i + |pat| <= |s| && s[i..i + |pat|] == pat
  }

  predicate Contains(s: string, pat: string) {
    exists i: nat :: i <= |s| && At(s, i, pat)
  }

  predicate EndsWith(s: string, suffix: string) {
    |suffix| <= |s| && s[|s| - |suffix|..] == suffix
  }

  /** `s[p..q]` has nothing but whitespace before and after it in `s`. */
  predicate Padded(s: string, p: nat, q: nat) {
    p <= q <= |s| && AllWhitespace(s[..p]) && AllWhitespace(s[q..])
  }

  /** A padding of `s[1..]` is one of `s` when `s[0]` is whitespace. */
  lemma PaddedAfterFirst(s: string, p: nat, q: nat)
    requires s != [] && IsWhitespace(s[0]) && Padded(s[1..], p, q)
    ensures Padded(s, p + 1, q + 1) && s[1..][p..q] == s[p + 1..q + 1]
  {
    assert s[..p + 1] == [s[0]] + s[1..][..p];
    assert s[q + 1..] == s[1..][q..];
  }

  /** A padding of `s[..|s| - 1]` is one of `s` when the last character is whitespace. */
  lemma PaddedBeforeLast(s: string, p: nat, q: nat)
    requires s != [] && IsWhitespace(s[|s| - 1]) && Padded(s[..|s| - 1], p, q)
    ensures Padded(s, p, q) && s[..|s| - 1][p..q] == s[p..q]
  {
    assert s[..p] == s[..|s| - 1][..p];
    assert s[q..] == s[..|s| - 1][q..] + [s[|s| - 1]];
  }

  /** `String.prototype.trim`: whitespace removed from both ends. */
  function Trim(s: string): (r: string)
    ensures IsTrimmed(r)
    ensures |r| <= |s|
  {
    if s != [] && IsWhitespace(s[0]) then Trim(s[1..])
    else if s != [] && IsWhitespace(s[|s| - 1]) then Trim(s[..|s| - 1])
    else s
  }

  /** Trimming keeps a slice of `s` and removes only whitespace: nothing but whitespace
      stands before and after the slice it keeps. */
  lemma {:induction false} TrimSlice(s: string)
    ensures exists p: nat, q: nat :: Padded(s, p, q) && Trim(s) == s[p..q]
  {
    if s != [] && IsWhitespace(s[0]) {
      TrimSlice(s[1..]);
      var p: nat, q: nat :| Padded(s[1..], p, q) && Trim(s[1..]) == s[1..][p..q];
      PaddedAfterFirst(s, p, q);
    } else if s != [] && IsWhitespace(s[|s| - 1]) {
      TrimSlice(s[..|s| - 1]);
      var p: nat, q: nat :| Padded(s[..|s| - 1], p, q) && Trim(s[..|s| - 1]) == s[..|s| - 1][p..q];
      PaddedBeforeLast(s, p, q);
    } else {
      assert Padded(s, 0, |s|) && s == s[0..|s|];
    }
  }

  /** Trimming leaves a trimmed text as it is. */
  lemma TrimOfTrimmed(s: string)
    requires IsTrimmed(s)
    ensures Trim(s) == s
  {
  }

  /** Trimming gives the empty text exactly for a text of whitespace only. */
  lemma {:induction false} TrimEmptyIffBlank(s: string)
    ensures Trim(s) == [] <==> AllWhitespace(s)
  {
    if s != [] && IsWhitespace(s[0]) {
      TrimEmptyIffBlank(s[1..]);
      assert AllWhitespace(s) <==> AllWhitespace(s[1..]) by {
        if AllWhitespace(s[1..]) {
          assert forall i :: 1 <= i < |s| ==> s[i] == s[1..][i - 1];
        }
      }
    } else if s != [] && IsWhitespace(s[|s| - 1]) {
      TrimEmptyIffBlank(s[..|s| - 1]);
      assert !AllWhitespace(s) && !AllWhitespace(s[..|s| - 1]) by {
        assert !IsWhitespace(s[0]);
        if |s| > 1 { assert s[..|s| - 1][0] == s[0]; }
      }
    } else if s != [] {
      assert !IsWhitespace(s[0]);
    }
  }

  /** The first index of `c` in `s`, when there is one. */
  function IndexOf<T(==)>(s: seq<T>, c: T): (i: nat)
    requires c in s
    ensures i < |s| && s[i] == c && c !in s[..i]
  {
    if s[0] == c then 0 else IndexOf(s[1..], c) + 1
  }

  /** An index holding `c` with no `c` before it is the first index of `c`. */
  lemma IndexOfUnique<T>(s: seq<T>, c: T, i: nat)
    requires i < |s| && s[i] == c && c !in s[..i]
    ensures IndexOf(s, c) == i
  {
  }

  /** The inverse of `split("\n")`: the pieces separated by newlines. */
  function Join(pieces: seq<string>): string {
    if |pieces| == 0 then ""
    else if |pieces| == 1 then pieces[0]
    else pieces[0] + "\n" + Join(pieces[1..])
  }

  /** `String.prototype.split("\n")`: at least one piece (the empty text gives one empty
      piece), no piece holds a newline, and joining the pieces with newlines gives `s` back. */
  function Split(s: string): (pieces: seq<string>)
    ensures |pieces| >= 1
    ensures forall i :: 0 <= i < |pieces| ==> '\n' !in pieces[i]
    ensures Join(pieces) == s
    decreases |s|
  {
    if '\n' !in s then [s]
    else
      var i := IndexOf(s, '\n');
      var rest := Split(s[i + 1..]);
      assert s == s[..i] + "\n" + s[i + 1..];
      [s[..i]] + rest
  }

  /** The first piece ends at the first newline. */
  lemma SplitAtFirstNewline(p: string, q: string)
    requires '\n' !in p
    ensures Split(p + "\n" + q) == [p] + Split(q)
  {
    var s := p + "\n" + q;
    assert s[|p|] == '\n';
    var i := IndexOf(s, '\n');
    assert i == |p|;
    assert s[..i] == p;
    assert s[i + 1..] == q;
  }

  /** Splitting is the inverse of joining pieces that hold no newline. */
  lemma {:induction false} SplitJoin(pieces: seq<string>)
    requires |pieces| >= 1
    requires forall i :: 0 <= i < |pieces| ==> '\n' !in pieces[i]
    ensures Split(Join(pieces)) == pieces
  {
    if |pieces| > 1 {
      SplitAtFirstNewline(pieces[0], Join(pieces[1..]));
      SplitJoin(pieces[1..]);
      assert pieces == [pieces[0]] + pieces[1..];
    }
  }

  /** Concatenation is associative. */
  lemma AppendAssoc<T>(a: seq<T>, b: seq<T>, c: seq<T>)
    ensures a + (b + c) == (a + b) + c
  {
  }

  predicate NoDuplicates<T(==)>(s: seq<T>) {
    forall i, j :: 0 <= i < j < |s| ==> s[i] != s[j]
  }

  /** The first occurrence of every element among the first `n` of `s`, in order: the
      `Set` after `n` insertions. */
  function DedupPrefix<T(==,!new)>(s: seq<T>, n: nat): (r: seq<T>)
    requires n <= |s|
    ensures |r| <= n
  {
    if n == 0 then []
    else
      var d := DedupPrefix(s, n - 1);
      if s[n - 1] in d then d else d + [s[n - 1]]
  }

  /** `[...new Set(s)]`: the first occurrence of every element of `s`, in order. */
  function Dedup<T(==,!new)>(s: seq<T>): (r: seq<T>)
    ensures |r| <= |s|
  {
    DedupPrefix(s, |s|)
  }

  /** Only the first `n` elements matter. */
  lemma {:induction false} DedupPrefixAgrees<T(!new)>(s: seq<T>, t: seq<T>, n: nat)
    requires n <= |s| && n <= |t| && s[..n] == t[..n]
    ensures DedupPrefix(s, n) == DedupPrefix(t, n)
  {
    if n > 0 {
      assert s[n - 1] == s[..n][n - 1] == t[..n][n - 1] == t[n - 1];
      assert s[..n - 1] == s[..n][..n - 1] == t[..n][..n - 1] == t[..n - 1];
      DedupPrefixAgrees(s, t, n - 1);
    }
  }

  /** The last element is added unless it was seen before. */
  lemma DedupSnoc<T(!new)>(s: seq<T>)
    requires s != []
    ensures var d := Dedup(s[..|s| - 1]);
      Dedup(s) == if s[|s| - 1] in d then d else d + [s[|s| - 1]]
  {
    var init := s[..|s| - 1];
    assert init[..|init|] == s[..|s| - 1];
    DedupPrefixAgrees(s, init, |init|);
  }

  /** De-duplication leaves no element twice and keeps exactly the elements of `s`. */
  lemma {:induction false} DedupSpec<T(!new)>(s: seq<T>)
    ensures NoDuplicates(Dedup(s))
    ensures forall x :: x in Dedup(s) <==> x in s
  {
    if s != [] {
      var init := s[..|s| - 1];
      DedupSnoc(s);
      DedupSpec(init);
      assert s == init + [s[|s| - 1]];
    }
  }

  /** De-duplicating a sequence without duplicates changes nothing. */
  lemma {:induction false} DedupOfDistinct<T(!new)>(s: seq<T>)
    requires NoDuplicates(s)
    ensures Dedup(s) == s
  {
    if s != [] {
      var init := s[..|s| - 1];
      DedupSnoc(s);
      DedupOfDistinct(init);
      assert s[|s| - 1] !in init;
      assert init + [s[|s| - 1]] == s;
    }
  }

  /** De-duplicating `a + b` keeps `a` as a prefix when `a` has no duplicates,
      and what follows are elements of `b` that are not in `a`. */
  lemma {:induction false} DedupAppend<T(!new)>(a: seq<T>, b: seq<T>)
    requires NoDuplicates(a)
    ensures |Dedup(a + b)| >= |a| && Dedup(a + b)[..|a|] == a
    ensures forall x :: x in Dedup(a + b)[|a|..] ==> x in b && x !in a
  {
    if b == [] {
      assert a + b == a;
      DedupOfDistinct(a);
    } else {
      var b' := b[..|b| - 1];
      DedupAppend(a, b');
      assert (a + b)[..|a + b| - 1] == a + b';
      DedupSnoc(a + b);
      var d := Dedup(a + b');
      var x := b[|b| - 1];
      forall y | y in b' ensures y in b {
        var i :| 0 <= i < |b'| && b'[i] == y;
        assert b[i] == y;
      }
      if x !in d {
        assert Dedup(a + b) == d + [x];
        assert (d + [x])[..|a|] == d[..|a|];
        assert (d + [x])[|a|..] == d[|a|..] + [x];
        assert d[..|a|] == a && x in b;
      } else {
        assert Dedup(a + b) == d;
      }
    }
  }

  /** De-duplicating `a + c` where every element of `c` is in `a` gives `a`. */
  lemma {:induction false} DedupAbsorbed<T(!new)>(a: seq<T>, c: seq<T>)
    requires NoDuplicates(a)
    requires forall x :: x in c ==> x in a
    ensures Dedup(a + c) == a
  {
    if c == [] {
      assert a + c == a;
      DedupOfDistinct(a);
    } else {
      var c' := c[..|c| - 1];
      forall y | y in c' ensures y in a {
        var i :| 0 <= i < |c'| && c'[i] == y;
        assert c[i] == y;
      }
      DedupAbsorbed(a, c');
      assert (a + c)[..|a + c| - 1] == a + c';
      assert c[|c| - 1] in c;
      DedupSnoc(a + c);
    }
  }

  /** De-duplicating `a + b`, where all of `b` but its last element is already in `a` and
      that last element is new, adds exactly that element. */
  lemma DedupOneNew<T(!new)>(a: seq<T>, b: seq<T>)
    requires NoDuplicates(a) && b != []
    requires forall x :: x in b[..|b| - 1] ==> x in a
    requires b[|b| - 1] !in a
    ensures Dedup(a + b) == a + [b[|b| - 1]]
  {
    var init := b[..|b| - 1];
    DedupAbsorbed(a, init);
    assert (a + b)[..|a + b| - 1] == a + init;
    DedupSnoc(a + b);
  }

  /** De-duplicating keeps the first element in front. */
  lemma {:induction false} DedupHead<T(!new)>(s: seq<T>)
    requires s != []
    ensures Dedup(s) != [] && Dedup(s)[0] == s[0]
  {
    DedupSnoc(s);
    if |s| > 1 {
      var init := s[..|s| - 1];
      DedupHead(init);
    }
  }
}
