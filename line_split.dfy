/**
 * The two shell utilities the bulk loader calls, as functions on the file's
 * content: `wc -l`, which counts newline characters, and `split -l N`, which
 * cuts the file into pieces of N lines, the last one possibly shorter.
 */
module LineSplit {
  import opened Sequences

  /** `wc -l`: the number of newline characters. An unterminated last line is
      not counted. */
  function LineCount(s: string): nat
  {
    multiset(s)['\n']
  }

  /** The index just past the first newline at or after `i`, or the end. */
  function LineEnd(s: string, i: nat): (k: nat)
    requires i < |s|
    ensures i < k <= |s|
    ensures forall j :: i <= j < k - 1 ==> s[j] != '\n'
    ensures s[k - 1] == '\n' || k == |s|
    ensures k < |s| ==> s[k - 1] == '\n'
    decreases |s| - i
  {
    if s[i] == '\n' || i + 1 == |s| then i + 1 else LineEnd(s, i + 1)
  }

  /** The lines as `split` reads them: each keeps its newline, and a last line
      without one is a line too. */
  function Lines(s: string): seq<string>
    decreases |s|
  {
    if s == [] then [] else var k := LineEnd(s, 0); [s[..k]] + Lines(s[k..])
  }

  /** The lines, joined again, are the content. */
  lemma {:induction false} LinesJoin(s: string)
    ensures Flatten(Lines(s)) == s
    decreases |s|
  {
    if s != [] {
      var k := LineEnd(s, 0);
      LinesJoin(s[k..]);
      FlattenCons(s[..k], Lines(s[k..]));
      SplitAt(s, k);
    }
  }

  /** Each line is non-empty and has a newline only at its end; every line but
      the last ends with one. */
  lemma {:induction false} LinesShape(s: string)
    ensures forall j :: 0 <= j < |Lines(s)| ==>
      var line := Lines(s)[j];
      && line != []
      && '\n' !in line[..|line| - 1]
      && (j < |Lines(s)| - 1 ==> line[|line| - 1] == '\n')
    decreases |s|
  {
    if s != [] {
      var k := LineEnd(s, 0);
      LinesShape(s[k..]);
      var first := s[..k];
      var head := first[..k - 1];
      forall j | 0 <= j < |head| ensures head[j] != '\n' {
        assert head[j] == s[j];
      }
      assert Lines(s) == [first] + Lines(s[k..]);
    }
  }

  /** The first line holds one newline if it ends with one, none otherwise. */
  lemma FirstLineCount(s: string)
    requires s != []
    ensures var k := LineEnd(s, 0); LineCount(s[..k]) == if s[k - 1] == '\n' then 1 else 0
  {
    var k := LineEnd(s, 0);
    var head := s[..k - 1];
    forall j | 0 <= j < |head| ensures head[j] != '\n' {
      assert head[j] == s[j];
    }
    assert s[..k] == head + [s[k - 1]];
    assert multiset(s[..k]) == multiset(head) + multiset{s[k - 1]};
  }

  /** `split` sees one line more than `wc -l` counts exactly when the content
      does not end with a newline. */
  lemma {:induction false} LinesCount(s: string)
    ensures |Lines(s)| == LineCount(s) + (if s != [] && s[|s| - 1] != '\n' then 1 else 0)
    decreases |s|
  {
    if s != [] {
      var k := LineEnd(s, 0);
      var rest := s[k..];
      LinesCount(rest);
      FirstLineCount(s);
      SplitAt(s, k);
      if k < |s| {
        assert rest[|rest| - 1] == s[|s| - 1];
      }
    }
  }

  /** `split -l n` on a list of lines: consecutive groups of `n` lines. */
  function Groups(lines: seq<string>, n: nat): seq<seq<string>>
    requires n > 0
    decreases |lines|
  {
    if |lines| <= n then (if lines == [] then [] else [lines])
    else [lines[..n]] + Groups(lines[n..], n)
  }

  /** The groups, joined again, are the lines in their original order. */
  lemma {:induction false} GroupsJoin(lines: seq<string>, n: nat)
    requires n > 0
    ensures Flatten(Groups(lines, n)) == lines
    decreases |lines|
  {
    if |lines| <= n {
      if lines != [] { FlattenCons(lines, []); }
    } else {
      GroupsJoin(lines[n..], n);
      FlattenCons(lines[..n], Groups(lines[n..], n));
      assert lines[..n] + lines[n..] == lines;
    }
  }

  /** Every group holds exactly `n` lines except the last, which holds between
      one and `n`; there are ceil(|lines| / n) of them. */
  lemma {:induction false} GroupsSizes(lines: seq<string>, n: nat)
    requires n > 0
    ensures var groups := Groups(lines, n);
      && (lines == [] <==> groups == [])
      && (lines != [] ==> (|groups| - 1) * n < |lines| <= |groups| * n)
      && forall i :: 0 <= i < |groups| ==>
           0 < |groups[i]| <= n && (i < |groups| - 1 ==> |groups[i]| == n)
    decreases |lines|
  {
    if |lines| > n {
      var rest := Groups(lines[n..], n);
      GroupsSizes(lines[n..], n);
      assert Groups(lines, n) == [lines[..n]] + rest;
      assert (|rest| + 1) * n == |rest| * n + n;
      assert |rest| * n == (|rest| - 1) * n + n;
    }
  }

  /** The content of each piece file `split -l n` writes, in order. */
  function Pieces(s: string, n: nat): (pieces: seq<string>)
    requires n > 0
  {
    var groups := Groups(Lines(s), n);
    seq(|groups|, i requires 0 <= i < |groups| => Flatten(groups[i]))
  }

  /** The pieces, joined in order, are the original content. */
  lemma PiecesJoin(s: string, n: nat)
    requires n > 0
    ensures Flatten(Pieces(s, n)) == s
  {
    FlattenNested(Groups(Lines(s), n));
    GroupsJoin(Lines(s), n);
    LinesJoin(s);
  }
}
