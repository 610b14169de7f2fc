/** Joining a sequence of sequences end to end. */
module Sequences {

  /** The parts joined in order. */
  function Flatten<T>(parts: seq<seq<T>>): seq<T>
  {
    if parts == [] then [] else Flatten(parts[..|parts| - 1]) + parts[|parts| - 1]
  }

  /** Joining distributes over concatenation of the part lists. */
  lemma {:induction false} FlattenAppend<T>(a: seq<seq<T>>, b: seq<seq<T>>)
    ensures Flatten(a + b) == Flatten(a) + Flatten(b)
    decreases |b|
  {
    if b == [] {
      assert a + b == a;
    } else {
      var n := |b| - 1;
      assert (a + b)[..|a| + n] == a + b[..n];
      assert (a + b)[|a| + n] == b[n];
      FlattenAppend(a, b[..n]);
    }
  }

  /** Joining a part onto the front. */
  lemma FlattenCons<T>(x: seq<T>, rest: seq<seq<T>>)
    ensures Flatten([x] + rest) == x + Flatten(rest)
  {
    FlattenAppend([x], rest);
    assert [x][..0] == [];
  }

  /** Joining the joined groups is joining everything. */
  lemma {:induction false} FlattenNested<T>(groups: seq<seq<seq<T>>>)
    ensures Flatten(seq(|groups|, i requires 0 <= i < |groups| => Flatten(groups[i]))) == Flatten(Flatten(groups))
    decreases |groups|
  {
    if groups != [] {
      var n := |groups| - 1;
      var joined := seq(|groups|, i requires 0 <= i < |groups| => Flatten(groups[i]));
      assert joined[..n] == seq(n, i requires 0 <= i < n => Flatten(groups[..n][i]));
      FlattenNested(groups[..n]);
      FlattenAppend(Flatten(groups[..n]), groups[n]);
    }
  }

  /** A non-empty sequence is its front followed by its last element. */
  lemma SplitLast<T>(s: seq<T>)
    requires s != []
    ensures s[..|s| - 1] + [s[|s| - 1]] == s
  {
  }

  lemma ConcatAssoc<T>(a: seq<T>, b: seq<T>, c: seq<T>)
    ensures (a + b) + c == a + (b + c)
  {
  }

  /** The index of the first `true` at or after `i`, or `|flags|`. */
  function FirstTrue(flags: seq<bool>, i: nat): (k: nat)
    requires i <= |flags|
    ensures i <= k <= |flags|
    ensures forall j | i <= j < k :: !flags[j]
    ensures k < |flags| ==> flags[k]
    decreases |flags| - i
  {
    if i == |flags| || flags[i] then i else FirstTrue(flags, i + 1)
  }

  /** A prefix one longer is the prefix followed by the next element. */
  lemma TakeNext<T>(s: seq<T>, j: nat)
    requires j < |s|
    ensures s[..j + 1] == s[..j] + [s[j]]
  {
  }

  /** A sequence is its prefix followed by the rest. */
  lemma SplitAt<T>(s: seq<T>, k: nat)
    requires k <= |s|
    ensures s[..k] + s[k..] == s
    ensures multiset(s) == multiset(s[..k]) + multiset(s[k..])
  {
    assert s[..k] + s[k..] == s;
  }
}
