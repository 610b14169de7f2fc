/**
 * The regular expression the combined-log parser matches a line against,
 *
 *   ^(\S+)\s(\S+)\s(\S+)\s\[([^\]]*)\]\s"([^"]*)"\s(\d*)\s(\S*)\s"([^"]*)"\s"([^"]*)"$
 *
 * as a sequence of elements: a capturing group over a character class,
 * one whitespace character, or one literal character. `^` and `$` are line
 * anchors, as in Ruby: `^` holds at the start of the text and after a line
 * feed, `$` at the end of the text and before a line feed.
 *
 * `Matches` is what a regular expression means: the ways a text can be cut
 * into pieces the elements accept. `Scan` is a matcher that never
 * backtracks; it finds the match a backtracking engine finds whenever every
 * group is followed by an element that accepts nothing the group does,
 * which is the case for this pattern.
 */
module LogPattern {
  import opened Wrappers
  import opened RubyText

  /** `\S`, `\d` and `[^c]`. */
  datatype CharClass = NonSpace | Digit | Except(c: char)

  predicate In(cls: CharClass, c: char)
  {
    match cls
    case NonSpace => !IsSpace(c)
    case Digit => IsDigit(c)
    case Except(x) => c != x
  }

  /** `(cls+)` when `nonEmpty`, `(cls*)` otherwise; `\s`; a literal. */
  datatype Element = Group(cls: CharClass, nonEmpty: bool) | Space | Lit(c: char)

  /** The character an element that is not a group accepts. */
  predicate Accepts(e: Element, c: char)
    requires !e.Group?
  {
    if e.Space? then IsSpace(c) else c == e.c
  }

  /** A group, then one whitespace character: `(\S+)\s`, `(\d*)\s`. */
  function Bare(cls: CharClass, nonEmpty: bool): seq<Element>
  {
    [Group(cls, nonEmpty), Space]
  }

  /** A group between two delimiters that holds anything but the closing
      one: `\[([^\]]*)\]`, `"([^"]*)"`. */
  function Between(open: char, close: char): seq<Element>
  {
    [Lit(open), Group(Except(close), false), Lit(close)]
  }

  /** The combined log format, one group per field: remote host, identd,
      user, time, request, status, bytes, referrer and user agent. */
  const Combined: seq<Element> :=
    Bare(NonSpace, true) + Bare(NonSpace, true) + Bare(NonSpace, true)
    + Between('[', ']') + [Space] + Between('"', '"') + [Space]
    + Bare(Digit, false) + Bare(NonSpace, false)
    + Between('"', '"') + [Space] + Between('"', '"')

  function GroupCount(pat: seq<Element>): nat
    decreases |pat|
  {
    if pat == [] then 0 else (if pat[0].Group? then 1 else 0) + GroupCount(pat[1..])
  }

  /** What a regular expression means: `s[i..j]` can be cut into pieces the
      elements of `pat` accept, each group capturing the text of its own
      piece. */
  ghost predicate Matches(pat: seq<Element>, s: string, i: nat, j: nat, caps: seq<string>)
    requires i <= j <= |s|
    decreases |pat|
  {
    if pat == [] then i == j && caps == []
    else match pat[0]
      case Group(cls, nonEmpty) =>
        && caps != []
        && exists k | i <= k <= j ::
             && (nonEmpty ==> i < k)
             && (forall m | i <= m < k :: In(cls, s[m]))
             && caps[0] == s[i..k]
             && Matches(pat[1..], s, k, j, caps[1..])
      case _ => i < j && Accepts(pat[0], s[i]) && Matches(pat[1..], s, i + 1, j, caps)
  }

  /** The first index at or after `i` whose character is outside `cls`, or
      `|s|`: where a greedy group stops. */
  function Span(cls: CharClass, s: string, i: nat): (k: nat)
    requires i <= |s|
    ensures i <= k <= |s|
    ensures forall m | i <= m < k :: In(cls, s[m])
    ensures k < |s| ==> !In(cls, s[k])
    decreases |s| - i
  {
    if i == |s| || !In(cls, s[i]) then i else Span(cls, s, i + 1)
  }

  /** Where a match ends, and what its groups captured. */
  datatype Scanned = Scanned(end: nat, caps: seq<string>)

  /** Matching without backtracking: each group takes the longest run of
      its class. */
  function Scan(pat: seq<Element>, s: string, i: nat): (r: Option<Scanned>)
    requires i <= |s|
    ensures r.Some? ==> i <= r.value.end <= |s| && |r.value.caps| == GroupCount(pat)
    decreases |pat|
  {
    if pat == [] then Some(Scanned(i, []))
    else match pat[0]
      case Group(cls, nonEmpty) =>
        var k := Span(cls, s, i);
        if nonEmpty && k == i then None
        else
          var r := Scan(pat[1..], s, k);
          if r.None? then None else Some(Scanned(r.value.end, [s[i..k]] + r.value.caps))
      case _ =>
        if i < |s| && Accepts(pat[0], s[i]) then Scan(pat[1..], s, i + 1) else None
  }

  /** Every character `e` accepts lies outside `cls`. */
  predicate Stops(e: Element, cls: CharClass)
  {
    match e
    case Group(_, _) => false
    case Space => cls.NonSpace? || cls.Digit?
    case Lit(c) => !In(cls, c)
  }

  /** Every group is followed by an element that stops it. */
  predicate Separated(pat: seq<Element>)
    decreases |pat|
  {
    pat == [] ||
    ((pat[0].Group? ==> |pat| >= 2 && Stops(pat[1], pat[0].cls)) && Separated(pat[1..]))
  }

  lemma StopsAccepts(e: Element, cls: CharClass, c: char)
    requires Stops(e, cls) && Accepts(e, c)
    ensures !In(cls, c)
  {
  }

  /** What the matcher finds is a match. */
  lemma {:induction false} ScanSound(pat: seq<Element>, s: string, i: nat)
    requires i <= |s| && Scan(pat, s, i).Some?
    ensures var r := Scan(pat, s, i).value; Matches(pat, s, i, r.end, r.caps)
    decreases |pat|
  {
    if pat != [] {
      var r := Scan(pat, s, i).value;
      match pat[0]
      case Group(cls, nonEmpty) =>
        var k := Span(cls, s, i);
        ScanSound(pat[1..], s, k);
        assert r.caps[1..] == Scan(pat[1..], s, k).value.caps;
      case _ =>
        ScanSound(pat[1..], s, i + 1);
    }
  }

  lemma SpanAt(cls: CharClass, s: string, i: nat, k: nat)
    requires i <= k <= |s|
    requires forall m | i <= m < k :: In(cls, s[m])
    requires k < |s| ==> !In(cls, s[k])
    ensures Span(cls, s, i) == k
    decreases k - i
  {
    if i < k {
      SpanAt(cls, s, i + 1, k);
    }
  }

  /** A match that begins with an element other than a group takes a
      character that element accepts. */
  lemma MatchesFirst(pat: seq<Element>, s: string, k: nat, j: nat, caps: seq<string>)
    requires pat != [] && !pat[0].Group? && k <= j <= |s| && Matches(pat, s, k, j, caps)
    ensures k < |s| && Accepts(pat[0], s[k])
  {
  }

  /** For a separated pattern the matcher finds every match there is, so a
      match is determined by where it begins. */
  lemma {:induction false} ScanComplete(pat: seq<Element>, s: string, i: nat, j: nat, caps: seq<string>)
    requires Separated(pat) && i <= j <= |s| && Matches(pat, s, i, j, caps)
    ensures Scan(pat, s, i) == Some(Scanned(j, caps))
    decreases |pat|
  {
    if pat != [] {
      match pat[0]
      case Group(cls, nonEmpty) =>
        var k :| i <= k <= j && (nonEmpty ==> i < k) && (forall m | i <= m < k :: In(cls, s[m]))
          && caps[0] == s[i..k] && Matches(pat[1..], s, k, j, caps[1..]);
        MatchesFirst(pat[1..], s, k, j, caps[1..]);
        StopsAccepts(pat[1], cls, s[k]);
        SpanAt(cls, s, i, k);
        ScanComplete(pat[1..], s, k, j, caps[1..]);
        ScanGroup(pat, s, i, k, j, caps);
      case _ =>
        ScanComplete(pat[1..], s, i + 1, j, caps);
    }
  }

  /** A group that stops at `k`, followed by a scan of the rest from `k`,
      scans the whole. */
  lemma ScanGroup(pat: seq<Element>, s: string, i: nat, k: nat, j: nat, caps: seq<string>)
    requires pat != [] && pat[0].Group? && i <= k <= |s|
    requires Span(pat[0].cls, s, i) == k && (pat[0].nonEmpty ==> i < k)
    requires caps != [] && caps[0] == s[i..k]
    requires Scan(pat[1..], s, k) == Some(Scanned(j, caps[1..]))
    ensures Scan(pat, s, i) == Some(Scanned(j, caps))
  {
    assert caps == [caps[0]] + caps[1..];
  }

  /** `^`: the start of the text, or a position after a line feed that is
      not the end of the text. */
  predicate LineStart(s: string, i: nat)
  {
    i == 0 || (i < |s| && s[i - 1] == '\n')
  }

  /** `$`: the end of the text or of a line. */
  predicate LineEnd(s: string, j: nat)
  {
    j == |s| || (j < |s| && s[j] == '\n')
  }

  /** `^pat$` matches from `i` to `j`, capturing `caps`. */
  ghost predicate Found(pat: seq<Element>, s: string, i: nat, j: nat, caps: seq<string>)
  {
    i <= j <= |s| && LineStart(s, i) && Matches(pat, s, i, j, caps) && LineEnd(s, j)
  }

  /** The captures of `^pat$` at the first position from `i` on where it
      matches. */
  function MatchFrom(pat: seq<Element>, s: string, i: nat): Option<seq<string>>
    requires i <= |s|
    decreases |s| - i
  {
    var r := Scan(pat, s, i);
    if LineStart(s, i) && r.Some? && LineEnd(s, r.value.end) then Some(r.value.caps)
    else if i == |s| then None
    else MatchFrom(pat, s, i + 1)
  }

  /** `line.match(pattern)`: the captures of the leftmost match. */
  function MatchLine(s: string): Option<seq<string>>
  {
    MatchFrom(Combined, s, 0)
  }

  /** No match begins in `[p, i)`. */
  ghost predicate NoneBefore(pat: seq<Element>, s: string, p: nat, i: nat)
  {
    forall i', j', caps' | p <= i' < i :: !Found(pat, s, i', j', caps')
  }

  /** What `MatchFrom` returns is a match, and no match begins earlier. */
  lemma {:induction false} MatchFromSound(pat: seq<Element>, s: string, p: nat)
    requires Separated(pat) && p <= |s| && MatchFrom(pat, s, p).Some?
    ensures exists i, j | p <= i :: Found(pat, s, i, j, MatchFrom(pat, s, p).value) && NoneBefore(pat, s, p, i)
    decreases |s| - p
  {
    var r := Scan(pat, s, p);
    if LineStart(s, p) && r.Some? && LineEnd(s, r.value.end) {
      ScanSound(pat, s, p);
      assert Found(pat, s, p, r.value.end, r.value.caps);
    } else {
      NotFoundAt(pat, s, p);
      MatchFromSound(pat, s, p + 1);
      var i, j :| p + 1 <= i && Found(pat, s, i, j, MatchFrom(pat, s, p).value) && NoneBefore(pat, s, p + 1, i);
      assert NoneBefore(pat, s, p, i);
    }
  }

  /** Where the matcher succeeds between the anchors, there is a match. */
  lemma FoundAt(pat: seq<Element>, s: string, p: nat)
    requires p <= |s|
    requires var r := Scan(pat, s, p); LineStart(s, p) && r.Some? && LineEnd(s, r.value.end)
    ensures var r := Scan(pat, s, p).value; Found(pat, s, p, r.end, r.caps)
  {
    ScanSound(pat, s, p);
  }

  /** Where the matcher fails or misses an anchor, there is no match. */
  lemma NotFoundAt(pat: seq<Element>, s: string, p: nat)
    requires Separated(pat) && p <= |s|
    requires var r := Scan(pat, s, p); !(LineStart(s, p) && r.Some? && LineEnd(s, r.value.end))
    ensures forall j, caps :: !Found(pat, s, p, j, caps)
  {
    forall j, caps | Found(pat, s, p, j, caps) ensures false {
      ScanComplete(pat, s, p, j, caps);
    }
  }

  /** `MatchFrom` finds the leftmost match whenever there is one. */
  lemma {:induction false} MatchFromComplete(pat: seq<Element>, s: string, p: nat, i: nat, j: nat, caps: seq<string>)
    requires Separated(pat) && p <= i && Found(pat, s, i, j, caps) && NoneBefore(pat, s, p, i)
    ensures MatchFrom(pat, s, p) == Some(caps)
    decreases i - p
  {
    var r := Scan(pat, s, p);
    if p == i {
      ScanComplete(pat, s, i, j, caps);
    } else {
      if LineStart(s, p) && r.Some? && LineEnd(s, r.value.end) {
        FoundAt(pat, s, p);
        assert false;
      }
      MatchFromComplete(pat, s, p + 1, i, j, caps);
    }
  }

  /** `MatchFrom` finds nothing exactly when there is no match. */
  lemma {:induction false} MatchFromNone(pat: seq<Element>, s: string, p: nat)
    requires Separated(pat) && p <= |s|
    ensures MatchFrom(pat, s, p).None? <==> NoneBefore(pat, s, p, |s| + 1)
    decreases |s| - p
  {
    var r := Scan(pat, s, p);
    if LineStart(s, p) && r.Some? && LineEnd(s, r.value.end) {
      FoundAt(pat, s, p);
    } else {
      NotFoundAt(pat, s, p);
      if p < |s| {
        MatchFromNone(pat, s, p + 1);
      }
    }
  }

  /** What `MatchFrom` captures fits the pattern. */
  lemma {:induction false} MatchFromFits(pat: seq<Element>, s: string, p: nat)
    requires p <= |s| && MatchFrom(pat, s, p).Some?
    ensures Fits(pat, MatchFrom(pat, s, p).value)
    decreases |s| - p
  {
    var r := Scan(pat, s, p);
    if LineStart(s, p) && r.Some? && LineEnd(s, r.value.end) {
      ScanFits(pat, s, p);
    } else {
      MatchFromFits(pat, s, p + 1);
    }
  }

  /** The text a pattern writes for the given captures: each group its
      capture, `\s` a space, a literal itself. */
  function Render(pat: seq<Element>, caps: seq<string>): string
    requires |caps| == GroupCount(pat)
    decreases |pat|
  {
    if pat == [] then []
    else match pat[0]
      case Group(_, _) => caps[0] + Render(pat[1..], caps[1..])
      case Space => " " + Render(pat[1..], caps)
      case Lit(c) => [c] + Render(pat[1..], caps)
  }

  /** Every character of `t` lies in `cls`. */
  predicate Text(cls: CharClass, t: string)
  {
    forall m | 0 <= m < |t| :: In(cls, t[m])
  }

  /** Each capture lies in its group's class, and is non-empty where the
      group is `+`. */
  predicate Fits(pat: seq<Element>, caps: seq<string>)
    ensures Fits(pat, caps) ==> |caps| == GroupCount(pat)
    decreases |pat|
  {
    if pat == [] then caps == []
    else match pat[0]
      case Group(cls, nonEmpty) =>
        && caps != []
        && (nonEmpty ==> caps[0] != [])
        && Text(cls, caps[0])
        && Fits(pat[1..], caps[1..])
      case _ => Fits(pat[1..], caps)
  }

  /** A rendered text matches the pattern, capturing what was rendered. */
  lemma {:induction false} RenderMatches(pat: seq<Element>, caps: seq<string>, s: string, i: nat)
    requires Fits(pat, caps)
    requires i + |Render(pat, caps)| <= |s| && s[i..i + |Render(pat, caps)|] == Render(pat, caps)
    ensures Matches(pat, s, i, i + |Render(pat, caps)|, caps)
    decreases |pat|, 1
  {
    if pat != [] {
      if pat[0].Group? {
        RenderMatchesGroup(pat, caps, s, i);
      } else {
        RenderMatchesOther(pat, caps, s, i);
      }
    }
  }

  /** `RenderMatches` when the pattern begins with a group. */
  lemma {:induction false} RenderMatchesGroup(pat: seq<Element>, caps: seq<string>, s: string, i: nat)
    requires pat != [] && pat[0].Group? && Fits(pat, caps)
    requires i + |Render(pat, caps)| <= |s| && s[i..i + |Render(pat, caps)|] == Render(pat, caps)
    ensures Matches(pat, s, i, i + |Render(pat, caps)|, caps)
    decreases |pat|, 0
  {
    var out := Render(pat, caps);
    var j := i + |out|;
    var k := i + |caps[0]|;
    var tail := Render(pat[1..], caps[1..]);
    assert out == caps[0] + tail;
    SlicePieces(s, i, caps[0], tail);
    forall m | i <= m < k ensures In(pat[0].cls, s[m]) {
      assert s[m] == s[i..k][m - i];
    }
    RenderMatches(pat[1..], caps[1..], s, k);
    MatchesGroup(pat, s, i, k, j, caps);
  }

  /** `RenderMatches` when the pattern begins with a space or a literal. */
  lemma {:induction false} RenderMatchesOther(pat: seq<Element>, caps: seq<string>, s: string, i: nat)
    requires pat != [] && !pat[0].Group? && Fits(pat, caps)
    requires i + |Render(pat, caps)| <= |s| && s[i..i + |Render(pat, caps)|] == Render(pat, caps)
    ensures Matches(pat, s, i, i + |Render(pat, caps)|, caps)
    decreases |pat|, 0
  {
    var out := Render(pat, caps);
    var j := i + |out|;
    var tail := Render(pat[1..], caps);
    var first := if pat[0].Space? then ' ' else pat[0].c;
    assert out == [first] + tail;
    SlicePieces(s, i, [first], tail);
    assert s[i] == s[i..i + 1][0];
    RenderMatches(pat[1..], caps, s, i + 1);
    MatchesOther(pat, s, i, j, caps);
  }

  /** A text found at `i` that is `a` followed by `b` holds `a` at `i` and
      `b` right after it. */
  lemma SlicePieces(s: string, i: nat, a: string, b: string)
    requires i + |a + b| <= |s| && s[i..i + |a + b|] == a + b
    ensures s[i..i + |a|] == a && s[i + |a|..i + |a| + |b|] == b
  {
    assert s[i..i + |a|] == (a + b)[..|a|];
    assert s[i + |a|..i + |a| + |b|] == (a + b)[|a|..];
  }

  /** A group that takes `s[i..k]`, followed by a match of the rest from `k`,
      is a match of the whole. */
  lemma MatchesGroup(pat: seq<Element>, s: string, i: nat, k: nat, j: nat, caps: seq<string>)
    requires pat != [] && pat[0].Group? && i <= k <= j <= |s|
    requires (pat[0].nonEmpty ==> i < k) && (forall m | i <= m < k :: In(pat[0].cls, s[m]))
    requires caps != [] && caps[0] == s[i..k] && Matches(pat[1..], s, k, j, caps[1..])
    ensures Matches(pat, s, i, j, caps)
  {
  }

  /** An element other than a group that accepts `s[i]`, followed by a match
      of the rest from `i + 1`, is a match of the whole. */
  lemma MatchesOther(pat: seq<Element>, s: string, i: nat, j: nat, caps: seq<string>)
    requires pat != [] && !pat[0].Group? && i < j <= |s|
    requires Accepts(pat[0], s[i]) && Matches(pat[1..], s, i + 1, j, caps)
    ensures Matches(pat, s, i, j, caps)
  {
  }

  /** What the matcher captures fits the pattern. */
  lemma {:induction false} ScanFits(pat: seq<Element>, s: string, i: nat)
    requires i <= |s| && Scan(pat, s, i).Some?
    ensures Fits(pat, Scan(pat, s, i).value.caps)
    decreases |pat|
  {
    if pat != [] {
      var r := Scan(pat, s, i).value;
      match pat[0]
      case Group(cls, nonEmpty) =>
        var k := Span(cls, s, i);
        ScanFits(pat[1..], s, k);
        var cap := s[i..k];
        assert r.caps[0] == cap && r.caps[1..] == Scan(pat[1..], s, k).value.caps;
        forall m | 0 <= m < |cap| ensures In(cls, cap[m]) {
          assert cap[m] == s[i + m];
        }
      case _ =>
        ScanFits(pat[1..], s, i + 1);
    }
  }

  lemma {:induction false} GroupCountConcat(a: seq<Element>, b: seq<Element>)
    ensures GroupCount(a + b) == GroupCount(a) + GroupCount(b)
    decreases |a|
  {
    if a == [] {
      assert a + b == b;
    } else {
      assert (a + b)[0] == a[0];
      assert (a + b)[1..] == a[1..] + b;
      GroupCountConcat(a[1..], b);
    }
  }

  /** Joining two separated patterns keeps them separated when the first
      does not end with a group. */
  lemma {:induction false} SeparatedConcat(a: seq<Element>, b: seq<Element>)
    requires Separated(a) && Separated(b)
    requires a != [] ==> !a[|a| - 1].Group?
    ensures Separated(a + b)
    decreases |a|
  {
    if a == [] {
      assert a + b == b;
    } else {
      assert (a + b)[0] == a[0];
      assert (a + b)[1..] == a[1..] + b;
      if |a| >= 2 {
        assert (a + b)[1] == a[1];
        assert a[1..][|a[1..]| - 1] == a[|a| - 1];
      }
      SeparatedConcat(a[1..], b);
    }
  }

  /** Appending a piece that ends with an element other than a group. */
  lemma Append(acc: seq<Element>, piece: seq<Element>)
    requires Separated(acc) && (acc != [] ==> !acc[|acc| - 1].Group?)
    requires Separated(piece) && piece != [] && !piece[|piece| - 1].Group?
    ensures Separated(acc + piece) && !(acc + piece)[|acc + piece| - 1].Group?
    ensures GroupCount(acc + piece) == GroupCount(acc) + GroupCount(piece)
  {
    SeparatedConcat(acc, piece);
    GroupCountConcat(acc, piece);
  }

  lemma PiecesShape(cls: CharClass, nonEmpty: bool, open: char, close: char)
    requires cls.NonSpace? || cls.Digit?
    ensures Separated(Bare(cls, nonEmpty)) && GroupCount(Bare(cls, nonEmpty)) == 1
    ensures Separated(Between(open, close)) && GroupCount(Between(open, close)) == 1
    ensures Separated([Space]) && GroupCount([Space]) == 0
  {
    assert [Space][1..] == [];
    assert Separated([Space]) && GroupCount([Space]) == 0;
    assert Bare(cls, nonEmpty)[1..] == [Space];
    assert [Lit(close)][1..] == [];
    assert Separated([Lit(close)]) && GroupCount([Lit(close)]) == 0;
    var w := Between(open, close);
    assert w[1..][1..] == [Lit(close)];
    assert w[1..] == [Group(Except(close), false), Lit(close)];
  }

  /** The combined format has nine groups and every one of them stops. */
  lemma CombinedShape()
    ensures Separated(Combined) && GroupCount(Combined) == 9
  {
    var host := Bare(NonSpace, true);
    var time := Between('[', ']');
    var quoted := Between('"', '"');
    PiecesShape(NonSpace, true, '[', ']');
    PiecesShape(Digit, false, '"', '"');
    PiecesShape(NonSpace, false, '"', '"');
    var acc := host;
    Append(acc, host);
    acc := acc + host;
    Append(acc, host);
    acc := acc + host;
    Append(acc, time);
    acc := acc + time;
    Append(acc, [Space]);
    acc := acc + [Space];
    Append(acc, quoted);
    acc := acc + quoted;
    Append(acc, [Space]);
    acc := acc + [Space];
    Append(acc, Bare(Digit, false));
    acc := acc + Bare(Digit, false);
    Append(acc, Bare(NonSpace, false));
    acc := acc + Bare(NonSpace, false);
    Append(acc, quoted);
    acc := acc + quoted;
    Append(acc, [Space]);
    acc := acc + [Space];
    Append(acc, quoted);
    acc := acc + quoted;
    assert acc == Combined;
  }

  /** Captures fit two patterns joined when they split into captures that
      fit each. */
  lemma {:induction false} FitsConcat(a: seq<Element>, b: seq<Element>, caps: seq<string>)
    ensures Fits(a + b, caps) <==>
      GroupCount(a) <= |caps| && Fits(a, caps[..GroupCount(a)]) && Fits(b, caps[GroupCount(a)..])
    decreases |a|
  {
    var n := GroupCount(a);
    if a == [] {
      assert a + b == b && caps[..0] == [] && caps[0..] == caps;
    } else {
      assert (a + b)[0] == a[0];
      assert (a + b)[1..] == a[1..] + b;
      if a[0].Group? {
        if caps != [] {
          FitsConcat(a[1..], b, caps[1..]);
          if n <= |caps| {
            assert caps[..n][1..] == caps[1..][..n - 1];
            assert caps[n..] == caps[1..][n - 1..];
            assert caps[..n][0] == caps[0];
          }
        }
      } else {
        FitsConcat(a[1..], b, caps);
      }
    }
  }

  /** One step along a pattern built piece by piece. */
  lemma FitsStep(acc: seq<Element>, piece: seq<Element>, caps: seq<string>, n: nat, m: nat)
    requires GroupCount(acc) == n && GroupCount(piece) == m - n && n <= m <= |caps|
    ensures Fits(acc + piece, caps[..m]) <==> Fits(acc, caps[..n]) && Fits(piece, caps[n..m])
  {
    FitsConcat(acc, piece, caps[..m]);
    assert caps[..m][..n] == caps[..n];
    assert caps[..m][n..] == caps[n..m];
  }

  lemma BareFits(cls: CharClass, nonEmpty: bool, x: seq<string>)
    ensures Fits(Bare(cls, nonEmpty), x) <==> |x| == 1 && (nonEmpty ==> x[0] != []) && Text(cls, x[0])
  {
    assert [Space][1..] == [];
    assert Bare(cls, nonEmpty)[1..] == [Space];
    if |x| == 1 {
      assert x[1..] == [];
    }
  }

  lemma BetweenFits(open: char, close: char, x: seq<string>)
    ensures Fits(Between(open, close), x) <==> |x| == 1 && Text(Except(close), x[0])
  {
    var w := Between(open, close);
    assert [Lit(close)][1..] == [];
    assert w[1..][1..] == [Lit(close)];
    assert w[1..] == [Group(Except(close), false), Lit(close)];
    assert Fits(w, x) == Fits(w[1..], x);
    if x != [] {
      assert Fits([Lit(close)], x[1..]) <==> x[1..] == [];
      assert Fits(w[1..], x) == (Text(Except(close), x[0]) && Fits([Lit(close)], x[1..]));
    }
  }

  lemma SpaceFits(x: seq<string>)
    ensures Fits([Space], x) <==> x == []
  {
    assert [Space][1..] == [];
  }

  /** What each field of the combined format may hold: host, identd and
      user are non-empty and without whitespace; the time has no `]`; the
      request, referrer and user agent have no `"`; the status is digits;
      the bytes have no whitespace. */
  predicate CombinedFields(caps: seq<string>)
  {
    && |caps| == 9
    && caps[0] != [] && Text(NonSpace, caps[0])
    && caps[1] != [] && Text(NonSpace, caps[1])
    && caps[2] != [] && Text(NonSpace, caps[2])
    && Text(Except(']'), caps[3])
    && Text(Except('"'), caps[4])
    && Text(Digit, caps[5])
    && Text(NonSpace, caps[6])
    && Text(Except('"'), caps[7])
    && Text(Except('"'), caps[8])
  }

  /** The combined format, cut after its sixth piece. */
  function Head(): seq<Element>
  {
    Bare(NonSpace, true) + Bare(NonSpace, true) + Bare(NonSpace, true)
    + Between('[', ']') + [Space] + Between('"', '"')
  }

  lemma HeadFits(caps: seq<string>)
    requires |caps| >= 5
    ensures GroupCount(Head()) == 5
    ensures Fits(Head(), caps[..5]) <==>
      && Fits(Bare(NonSpace, true), caps[0..1]) && Fits(Bare(NonSpace, true), caps[1..2])
      && Fits(Bare(NonSpace, true), caps[2..3]) && Fits(Between('[', ']'), caps[3..4])
      && Fits([Space], caps[4..4]) && Fits(Between('"', '"'), caps[4..5])
  {
    var host := Bare(NonSpace, true);
    var time := Between('[', ']');
    var quoted := Between('"', '"');
    PiecesShape(NonSpace, true, '[', ']');
    PiecesShape(NonSpace, true, '"', '"');
    GroupCountConcat(host, host);
    GroupCountConcat(host + host, host);
    GroupCountConcat(host + host + host, time);
    GroupCountConcat(host + host + host + time, [Space]);
    GroupCountConcat(host + host + host + time + [Space], quoted);
    FitsStep(host + host + host + time + [Space], quoted, caps, 4, 5);
    FitsStep(host + host + host + time, [Space], caps, 4, 4);
    FitsStep(host + host + host, time, caps, 3, 4);
    FitsStep(host + host, host, caps, 2, 3);
    FitsStep(host, host, caps, 1, 2);
    assert caps[0..1] == caps[..1];
  }

  lemma CombinedHead()
    ensures Combined == Head() + [Space] + Bare(Digit, false) + Bare(NonSpace, false)
      + Between('"', '"') + [Space] + Between('"', '"')
  {
  }

  lemma CombinedSplit(caps: seq<string>)
    requires |caps| == 9
    ensures Fits(Combined, caps) <==>
      && Fits(Head(), caps[..5]) && Fits([Space], caps[5..5])
      && Fits(Bare(Digit, false), caps[5..6]) && Fits(Bare(NonSpace, false), caps[6..7])
      && Fits(Between('"', '"'), caps[7..8]) && Fits([Space], caps[8..8])
      && Fits(Between('"', '"'), caps[8..9])
  {
    var quoted := Between('"', '"');
    var a9 := Head() + [Space] + Bare(Digit, false) + Bare(NonSpace, false);
    var a10 := a9 + quoted;
    var a11 := a10 + [Space];
    CombinedHead();
    MiddleSplit(caps);
    PiecesShape(NonSpace, false, '"', '"');
    GroupCountConcat(a9, quoted);
    GroupCountConcat(a10, [Space]);
    assert caps[..9] == caps;
    FitsStep(a11, quoted, caps, 8, 9);
    FitsStep(a10, [Space], caps, 8, 8);
    FitsStep(a9, quoted, caps, 7, 8);
  }

  /** The combined format up to the size field, cut into its pieces. */
  lemma MiddleSplit(caps: seq<string>)
    requires |caps| == 9
    ensures GroupCount(Head() + [Space] + Bare(Digit, false) + Bare(NonSpace, false)) == 7
    ensures Fits(Head() + [Space] + Bare(Digit, false) + Bare(NonSpace, false), caps[..7]) <==>
      && Fits(Head(), caps[..5]) && Fits([Space], caps[5..5])
      && Fits(Bare(Digit, false), caps[5..6]) && Fits(Bare(NonSpace, false), caps[6..7])
  {
    var a6 := Head();
    var a7 := a6 + [Space];
    var a8 := a7 + Bare(Digit, false);
    HeadFits(caps);
    PiecesShape(Digit, false, '"', '"');
    PiecesShape(NonSpace, false, '"', '"');
    GroupCountConcat(a6, [Space]);
    GroupCountConcat(a7, Bare(Digit, false));
    GroupCountConcat(a8, Bare(NonSpace, false));
    FitsStep(a8, Bare(NonSpace, false), caps, 6, 7);
    FitsStep(a7, Bare(Digit, false), caps, 5, 6);
    FitsStep(a6, [Space], caps, 5, 5);
  }

  /** The captures that fit the combined format are exactly those. */
  lemma CombinedFits(caps: seq<string>)
    ensures Fits(Combined, caps) <==> CombinedFields(caps)
  {
    CombinedShape();
    if |caps| == 9 {
      CombinedSplit(caps);
      HeadFields(caps);
      TailFields(caps);
    }
  }

  /** The first five captures fit the head of the format exactly when they
      hold what the host, identd, user, time and request fields may hold. */
  lemma HeadFields(caps: seq<string>)
    requires |caps| == 9
    ensures Fits(Head(), caps[..5]) <==>
      && caps[0] != [] && Text(NonSpace, caps[0])
      && caps[1] != [] && Text(NonSpace, caps[1])
      && caps[2] != [] && Text(NonSpace, caps[2])
      && Text(Except(']'), caps[3])
      && Text(Except('"'), caps[4])
  {
    HeadFits(caps);
    BareFits(NonSpace, true, caps[0..1]);
    BareFits(NonSpace, true, caps[1..2]);
    BareFits(NonSpace, true, caps[2..3]);
    BetweenFits('[', ']', caps[3..4]);
    BetweenFits('"', '"', caps[4..5]);
    SpaceFits(caps[4..4]);
  }

  /** The last four captures, with the spaces between them, fit the rest of
      the format exactly when they hold what the status, size, referrer and
      user-agent fields may hold. */
  lemma TailFields(caps: seq<string>)
    requires |caps| == 9
    ensures
      && Fits([Space], caps[5..5])
      && Fits(Bare(Digit, false), caps[5..6]) && Fits(Bare(NonSpace, false), caps[6..7])
      && Fits(Between('"', '"'), caps[7..8]) && Fits([Space], caps[8..8])
      && Fits(Between('"', '"'), caps[8..9])
      <==>
      && Text(Digit, caps[5])
      && Text(NonSpace, caps[6])
      && Text(Except('"'), caps[7])
      && Text(Except('"'), caps[8])
  {
    BareFits(Digit, false, caps[5..6]);
    BareFits(NonSpace, false, caps[6..7]);
    BetweenFits('"', '"', caps[7..8]);
    BetweenFits('"', '"', caps[8..9]);
    SpaceFits(caps[5..5]);
    SpaceFits(caps[8..8]);
  }

  /** A match of the combined format captures nine texts, each in its
      group's class. */
  lemma MatchLineFits(s: string)
    requires MatchLine(s).Some?
    ensures Fits(Combined, MatchLine(s).value) && |MatchLine(s).value| == 9
  {
    CombinedShape();
    MatchFromFits(Combined, s, 0);
  }

  /** Writing a pattern made of two parts writes each part with its own
      captures, one after the other. */
  lemma {:induction false} RenderConcat(a: seq<Element>, b: seq<Element>, caps: seq<string>)
    requires |caps| == GroupCount(a) + GroupCount(b)
    ensures GroupCount(a + b) == |caps|
    ensures Render(a + b, caps) == Render(a, caps[..GroupCount(a)]) + Render(b, caps[GroupCount(a)..])
    decreases |a|
  {
    GroupCountConcat(a, b);
    if a == [] {
      assert a + b == b;
      assert caps[GroupCount(a)..] == caps;
    } else {
      var n := GroupCount(a);
      assert (a + b)[0] == a[0];
      assert (a + b)[1..] == a[1..] + b;
      if a[0].Group? {
        RenderConcat(a[1..], b, caps[1..]);
        assert caps[..n][1..] == caps[1..][..n - 1];
        assert caps[1..][n - 1..] == caps[n..];
      } else {
        RenderConcat(a[1..], b, caps);
      }
    }
  }

  /** Appending a bare group to a pattern written so far writes its capture
      and a space. */
  lemma StepBare(acc: seq<Element>, cls: CharClass, nonEmpty: bool, caps: seq<string>, n: nat, text: string)
    requires GroupCount(acc) == n < |caps| && Render(acc, caps[..n]) == text
    ensures GroupCount(acc + Bare(cls, nonEmpty)) == n + 1
    ensures Render(acc + Bare(cls, nonEmpty), caps[..n + 1]) == text + caps[n] + " "
  {
    var piece := Bare(cls, nonEmpty);
    assert piece[1..] == [Space] && [Space][1..] == [];
    assert GroupCount(piece) == 1;
    RenderConcat(acc, piece, caps[..n + 1]);
    assert caps[..n + 1][..n] == caps[..n];
    assert caps[..n + 1][n..] == [caps[n]];
    assert Render(piece, [caps[n]]) == caps[n] + " ";
  }

  /** Appending a delimited group writes its capture between the
      delimiters. */
  lemma StepBetween(acc: seq<Element>, open: char, close: char, caps: seq<string>, n: nat, text: string)
    requires GroupCount(acc) == n < |caps| && Render(acc, caps[..n]) == text
    ensures GroupCount(acc + Between(open, close)) == n + 1
    ensures Render(acc + Between(open, close), caps[..n + 1]) == text + [open] + caps[n] + [close]
  {
    var piece := Between(open, close);
    var x := caps[n];
    assert piece[1..] == [Group(Except(close), false), Lit(close)];
    assert piece[1..][1..] == [Lit(close)] && [Lit(close)][1..] == [];
    assert GroupCount([Lit(close)]) == 0 && Render([Lit(close)], []) == [close];
    assert [x][1..] == [];
    assert GroupCount(piece[1..]) == 1 && Render(piece[1..], [x]) == x + [close];
    assert GroupCount(piece) == 1 && Render(piece, [x]) == [open] + (x + [close]);
    RenderConcat(acc, piece, caps[..n + 1]);
    assert caps[..n + 1][..n] == caps[..n];
    assert caps[..n + 1][n..] == [x];
  }

  /** Appending a `\s` writes a space. */
  lemma StepSpace(acc: seq<Element>, caps: seq<string>, n: nat, text: string)
    requires GroupCount(acc) == n <= |caps| && Render(acc, caps[..n]) == text
    ensures GroupCount(acc + [Space]) == n
    ensures Render(acc + [Space], caps[..n]) == text + " "
  {
    assert [Space][1..] == [];
    assert GroupCount([Space]) == 0;
    RenderConcat(acc, [Space], caps[..n]);
    assert caps[..n][..n] == caps[..n];
    assert caps[..n][n..] == [];
  }

  /** The head of the combined format writes host, identd, user, time and
      request. */
  lemma RenderHead(caps: seq<string>)
    requires |caps| == 9
    ensures GroupCount(Head()) == 5
    ensures Render(Head(), caps[..5]) ==
      caps[0] + " " + caps[1] + " " + caps[2] + " " + ['['] + caps[3] + [']'] + " " + ['"'] + caps[4] + ['"']
  {
    var a: seq<Element> := [];
    assert Render(a, caps[..0]) == [];
    StepBare(a, NonSpace, true, caps, 0, []);
    var t := [] + caps[0] + " ";
    StepBare(a + Bare(NonSpace, true), NonSpace, true, caps, 1, t);
    t := t + caps[1] + " ";
    a := a + Bare(NonSpace, true) + Bare(NonSpace, true);
    StepBare(a, NonSpace, true, caps, 2, t);
    t := t + caps[2] + " ";
    a := a + Bare(NonSpace, true);
    StepBetween(a, '[', ']', caps, 3, t);
    t := t + ['['] + caps[3] + [']'];
    a := a + Between('[', ']');
    StepSpace(a, caps, 4, t);
    t := t + " ";
    a := a + [Space];
    StepBetween(a, '"', '"', caps, 4, t);
    assert [] + Bare(NonSpace, true) + Bare(NonSpace, true) + Bare(NonSpace, true)
      + Between('[', ']') + [Space] + Between('"', '"') == Head();
    assert [] + caps[0] == caps[0];
  }

  /** The combined format after the request: status and size, then
      referrer and agent. */
  function Rest(): seq<Element>
  {
    Sizes() + Quoted()
  }

  function Sizes(): seq<Element>
  {
    [Space] + Bare(Digit, false) + Bare(NonSpace, false)
  }

  function Quoted(): seq<Element>
  {
    Between('"', '"') + [Space] + Between('"', '"')
  }

  lemma CombinedParts()
    ensures Combined == Head() + Rest()
  {
  }

  /** Status and size are written each followed by a space. */
  lemma RenderSizes(caps: seq<string>)
    requires |caps| == 2
    ensures GroupCount(Sizes()) == 2
    ensures Render(Sizes(), caps) == " " + caps[0] + " " + caps[1] + " "
  {
    var a: seq<Element> := [];
    assert Render(a, caps[..0]) == [];
    StepSpace(a, caps, 0, []);
    var t := [] + " ";
    a := a + [Space];
    StepBare(a, Digit, false, caps, 0, t);
    t := t + caps[0] + " ";
    a := a + Bare(Digit, false);
    StepBare(a, NonSpace, false, caps, 1, t);
    assert a + Bare(NonSpace, false) == Sizes();
    assert caps[..2] == caps;
    assert [] + " " == " ";
  }

  /** Referrer and agent are written in double quotes, a space apart. */
  lemma RenderQuoted(caps: seq<string>)
    requires |caps| == 2
    ensures GroupCount(Quoted()) == 2
    ensures Render(Quoted(), caps) == ['"'] + caps[0] + ['"'] + " " + ['"'] + caps[1] + ['"']
  {
    var a: seq<Element> := [];
    assert Render(a, caps[..0]) == [];
    StepBetween(a, '"', '"', caps, 0, []);
    var t := [] + ['"'] + caps[0] + ['"'];
    a := a + Between('"', '"');
    StepSpace(a, caps, 1, t);
    t := t + " ";
    a := a + [Space];
    StepBetween(a, '"', '"', caps, 1, t);
    assert a + Between('"', '"') == Quoted();
    assert caps[..2] == caps;
    assert [] + ['"'] == ['"'];
  }

  /** The rest of the combined format writes status, size, referrer and
      agent. */
  lemma RenderRest(caps: seq<string>)
    requires |caps| == 4
    ensures GroupCount(Rest()) == 4
    ensures Render(Rest(), caps) ==
      (" " + caps[0] + " " + caps[1] + " ") + (['"'] + caps[2] + ['"'] + " " + ['"'] + caps[3] + ['"'])
  {
    RenderSizes(caps[..2]);
    RenderQuoted(caps[2..]);
    RenderConcat(Sizes(), Quoted(), caps);
  }

  /** The line the combined format writes: the nine fields separated by
      spaces, the time in brackets and the request, referrer and agent in
      double quotes. */
  lemma RenderCombined(caps: seq<string>)
    requires |caps| == 9
    ensures GroupCount(Combined) == 9
    ensures Render(Combined, caps) ==
      (caps[0] + " " + caps[1] + " " + caps[2] + " " + ['['] + caps[3] + [']'] + " " + ['"'] + caps[4] + ['"'])
      + ((" " + caps[5] + " " + caps[6] + " ") + (['"'] + caps[7] + ['"'] + " " + ['"'] + caps[8] + ['"']))
  {
    CombinedParts();
    RenderHead(caps);
    RenderRest(caps[5..]);
    RenderConcat(Head(), Rest(), caps);
  }

  /** A line written in the combined format, followed by nothing or by a
      line feed and anything, is matched at its start and gives back the
      fields it was written from. */
  lemma MatchRendered(caps: seq<string>, rest: string)
    requires Fits(Combined, caps)
    requires rest == [] || rest[0] == '\n'
    ensures MatchLine(Render(Combined, caps) + rest) == Some(caps)
  {
    CombinedShape();
    var out := Render(Combined, caps);
    var s := out + rest;
    assert s[0..|out|] == out;
    RenderMatches(Combined, caps, s, 0);
    assert Found(Combined, s, 0, |out|, caps);
    MatchFromComplete(Combined, s, 0, 0, |out|, caps);
  }
}
