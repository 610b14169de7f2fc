/**
 * The pieces of Ruby's text handling the log parser relies on: the `\s` and
 * `\d` classes of its regular expressions, `String#to_i`, and
 * `String#split(/\s/)`.
 */
module RubyText {

  /** `\s`: space, tab, line feed, vertical tab, form feed, carriage return. */
  predicate IsSpace(c: char)
  {
    c == ' ' || c == '\t' || c == '\n' || c == '\U{000B}' || c == '\U{000C}' || c == '\r'
  }

  /** `\d`: an ASCII digit. */
  predicate IsDigit(c: char)
  {
    '0' <= c <= '9'
  }

  predicate AllDigits(s: string)
  {
    forall k | 0 <= k < |s| :: IsDigit(s[k])
  }

  predicate NoSpace(s: string)
  {
    forall k | 0 <= k < |s| :: !IsSpace(s[k])
  }

  function DigitValue(c: char): (d: nat)
    requires IsDigit(c)
    ensures d < 10
  {
    c as int - '0' as int
  }

  function DigitChar(d: nat): (c: char)
    requires d < 10
    ensures IsDigit(c) && DigitValue(c) == d
  {
    ('0' as int + d) as char
  }

  /** The number a run of decimal digits denotes. */
  function Value(ds: string): nat
    requires AllDigits(ds)
    decreases |ds|
  {
    if ds == [] then 0 else Value(ds[..|ds| - 1]) * 10 + DigitValue(ds[|ds| - 1])
  }

  /** Decimal notation of a natural number, without leading zeros. */
  function ShowNat(n: nat): (s: string)
    ensures s != [] && AllDigits(s)
    decreases n
  {
    if n < 10 then [DigitChar(n)] else ShowNat(n / 10) + [DigitChar(n % 10)]
  }

  /** Decimal notation of an integer, `-` before a negative one. */
  function ShowInt(n: int): string
  {
    if n < 0 then "-" + ShowNat(-n) else ShowNat(n)
  }

  lemma {:induction false} ValueShowNat(n: nat)
    ensures Value(ShowNat(n)) == n
    decreases n
  {
    if n >= 10 {
      var s := ShowNat(n);
      assert s[..|s| - 1] == ShowNat(n / 10);
      ValueShowNat(n / 10);
    }
  }

  function DropSpace(s: string): (t: string)
    ensures |t| <= |s|
    decreases |s|
  {
    if s != [] && IsSpace(s[0]) then DropSpace(s[1..]) else s
  }

  /** The digits `to_i` reads at the front of `s`: a digit, then digits that
      may be separated by single underscores. */
  function LeadingDigits(s: string): (ds: string)
    ensures AllDigits(ds)
  {
    if s != [] && IsDigit(s[0]) then [s[0]] + DigitsAfter(s[1..]) else []
  }

  function DigitsAfter(s: string): (ds: string)
    ensures AllDigits(ds)
    decreases |s|
  {
    if s != [] && IsDigit(s[0]) then [s[0]] + DigitsAfter(s[1..])
    else if |s| >= 2 && s[0] == '_' && IsDigit(s[1]) then [s[1]] + DigitsAfter(s[2..])
    else []
  }

  /** `String#to_i`: leading whitespace is skipped, then come an optional
      sign, an optional `0d` prefix and the digits; text with no digit there
      gives 0, and whatever follows the digits is ignored. */
  function ToI(s: string): int
  {
    var t := DropSpace(s);
    var n: int := Value(LeadingDigits(DropRadix(DropSign(t))));
    if t != [] && t[0] == '-' then -n else n
  }

  function DropSign(t: string): string
  {
    if t != [] && (t[0] == '+' || t[0] == '-') then t[1..] else t
  }

  /** The `0d` (or `0D`) prefix that marks a decimal literal. */
  function DropRadix(u: string): string
  {
    if |u| >= 2 && u[0] == '0' && (u[1] == 'd' || u[1] == 'D') then u[2..] else u
  }

  lemma {:induction false} DigitsAfterAll(s: string)
    requires AllDigits(s)
    ensures DigitsAfter(s) == s
    decreases |s|
  {
    if s != [] {
      DigitsAfterAll(s[1..]);
    }
  }

  /** Every step before the digits leaves a run of digits alone. */
  lemma DigitsPassThrough(s: string)
    requires s != [] && AllDigits(s)
    ensures DropSpace(s) == s && DropSign(s) == s && DropRadix(s) == s && LeadingDigits(s) == s
  {
    DigitsAfterAll(s[1..]);
    assert s == [s[0]] + s[1..];
    assert |s| >= 2 ==> IsDigit(s[1]);
  }

  /** A run of digits reads as the number it denotes. */
  lemma ToIDigits(s: string)
    requires s != [] && AllDigits(s)
    ensures ToI(s) == Value(s)
  {
    DigitsPassThrough(s);
  }

  /** `to_i` reads back what `to_s` writes. */
  lemma ToIShowInt(n: int)
    ensures ToI(ShowInt(n)) == n
  {
    var m: nat := if n < 0 then -n else n;
    var ds := ShowNat(m);
    DigitsPassThrough(ds);
    ValueShowNat(m);
    if n < 0 {
      var s := "-" + ds;
      assert s[0] == '-' && s[1..] == ds;
      assert DropSpace(s) == s;
    }
  }

  /** An empty or `-` text reads as 0. */
  lemma ToIEmptyOrDash()
    ensures ToI("") == 0 && ToI("-") == 0
  {
    assert DropSpace("-") == "-";
    assert DropSign("-") == [];
  }

  /** The index of the first whitespace character at or after `i`, or `|s|`. */
  function NextSpace(s: string, i: nat): (j: nat)
    requires i <= |s|
    ensures i <= j <= |s|
    ensures forall k | i <= k < j :: !IsSpace(s[k])
    ensures j < |s| ==> IsSpace(s[j])
    decreases |s| - i
  {
    if i == |s| || IsSpace(s[i]) then i else NextSpace(s, i + 1)
  }

  /** The texts between whitespace characters, empty ones included. */
  function Pieces(s: string): (ps: seq<string>)
    ensures ps != []
    ensures forall k | 0 <= k < |ps| :: NoSpace(ps[k])
    decreases |s|
  {
    var j := NextSpace(s, 0);
    if j == |s| then [s] else [s[..j]] + Pieces(s[j + 1..])
  }

  function DropEmptyTail(ps: seq<string>): (r: seq<string>)
    ensures r <= ps
    ensures r != [] ==> r[|r| - 1] != []
    ensures forall k | |r| <= k < |ps| :: ps[k] == []
    decreases |ps|
  {
    if ps != [] && ps[|ps| - 1] == [] then DropEmptyTail(ps[..|ps| - 1]) else ps
  }

  /** `s.split(/\s/)`: the texts between single whitespace characters, with
      the empty ones at the end removed. */
  function SplitWs(s: string): (r: seq<string>)
    ensures forall k | 0 <= k < |r| :: NoSpace(r[k])
  {
    DropEmptyTail(Pieces(s))
  }

  /** Words joined by single spaces. */
  function JoinSpace(ps: seq<string>): string
    requires ps != []
    decreases |ps|
  {
    if |ps| == 1 then ps[0] else ps[0] + " " + JoinSpace(ps[1..])
  }

  lemma NextSpaceAt(s: string, i: nat, j: nat)
    requires i <= j <= |s|
    requires forall k | i <= k < j :: !IsSpace(s[k])
    requires j == |s| || IsSpace(s[j])
    ensures NextSpace(s, i) == j
    decreases j - i
  {
  }

  /** Splitting undoes joining: words without whitespace, joined by single
      spaces, are split back into the same words. */
  lemma {:induction false} PiecesJoinSpace(ps: seq<string>)
    requires ps != []
    requires forall k | 0 <= k < |ps| :: NoSpace(ps[k])
    ensures Pieces(JoinSpace(ps)) == ps
    decreases |ps|
  {
    var s := JoinSpace(ps);
    var w := ps[0];
    if |ps| == 1 {
      NextSpaceAt(s, 0, |s|);
    } else {
      var rest := JoinSpace(ps[1..]);
      assert s == w + " " + rest;
      NextSpaceAt(s, 0, |w|);
      assert s[..|w|] == w;
      assert s[|w| + 1..] == rest;
      PiecesJoinSpace(ps[1..]);
      assert ps == [w] + ps[1..];
    }
  }

  lemma SplitWsJoinSpace(ps: seq<string>)
    requires ps != [] && ps[|ps| - 1] != []
    requires forall k | 0 <= k < |ps| :: NoSpace(ps[k])
    ensures SplitWs(JoinSpace(ps)) == ps
  {
    PiecesJoinSpace(ps);
  }

  /** Splitting an empty text gives no words at all. */
  lemma SplitWsEmpty()
    ensures SplitWs("") == []
  {
    assert Pieces("") == [""];
  }
}
