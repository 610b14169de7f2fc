/**
 * `Date._strptime(text, '%d/%b/%Y:%H:%M:%S')`, the reading of an access-log
 * timestamp such as `10/Oct/2000:13:55:36 -0700`. Each directive reads its
 * field the way Ruby's date library does; text left over after the seconds
 * (the zone offset, for instance) is ignored.
 */
module LogTime {
  import opened Wrappers
  import opened RubyText

  /** The fields the parser hands to `Time.mktime`. */
  datatype Instant = Instant(year: int, month: int, day: int, hour: int, minute: int, second: int)

  /** A field read by one directive, and the index just past it. */
  datatype Read = Read(value: int, next: nat)

  /** How many digits, at most `width`, stand at `i`. */
  function DigitCount(s: string, i: nat, width: nat): (k: nat)
    requires i <= |s|
    ensures k <= width && i + k <= |s|
    ensures forall j | i <= j < i + k :: IsDigit(s[j])
    ensures k < width && i + k < |s| ==> !IsDigit(s[i + k])
    decreases width
  {
    if width == 0 || i == |s| || !IsDigit(s[i]) then 0 else 1 + DigitCount(s, i + 1, width - 1)
  }

  /** Between one and `width` digits. */
  function ReadDigits(s: string, i: nat, width: nat): (r: Option<Read>)
    requires i <= |s|
    ensures r.Some? ==> i < r.value.next <= |s| && r.value.value >= 0
  {
    var k := DigitCount(s, i, width);
    if k == 0 then None
    else
      assert AllDigits(s[i..i + k]);
      Some(Read(Value(s[i..i + k]), i + k))
  }

  function InRange(r: Option<Read>, lo: int, hi: int): Option<Read>
  {
    if r.Some? && lo <= r.value.value <= hi then r else None
  }

  /** `%d` and `%H`: a space and one digit, or one or two digits, and the
      number must lie in `[lo, hi]`. */
  function ReadPadded(s: string, i: nat, lo: int, hi: int): (r: Option<Read>)
    requires i <= |s|
    ensures r.Some? ==> i < r.value.next <= |s| && lo <= r.value.value <= hi
  {
    if i < |s| && s[i] == ' ' then InRange(ReadDigits(s, i + 1, 1), lo, hi)
    else InRange(ReadDigits(s, i, 2), lo, hi)
  }

  /** `%M` and `%S`: one or two digits in `[0, hi]`. */
  function ReadTwo(s: string, i: nat, hi: int): (r: Option<Read>)
    requires i <= |s|
    ensures r.Some? ==> i < r.value.next <= |s| && 0 <= r.value.value <= hi
  {
    InRange(ReadDigits(s, i, 2), 0, hi)
  }

  /** `%Y`: an optional sign and any number of digits. */
  function ReadYear(s: string, i: nat): (r: Option<Read>)
    requires i <= |s|
    ensures r.Some? ==> i < r.value.next <= |s|
  {
    if i < |s| && (s[i] == '+' || s[i] == '-') then Signed(ReadDigits(s, i + 1, |s| - (i + 1)), s[i] == '-')
    else ReadDigits(s, i, |s| - i)
  }

  function Signed(r: Option<Read>, negative: bool): (q: Option<Read>)
    ensures q.Some? == r.Some? && (q.Some? ==> q.value.next == r.value.next)
  {
    if r.Some? && negative then Some(Read(-r.value.value, r.value.next)) else r
  }

  /** The month names `%b` accepts: the full names first, then the
      abbreviations. */
  const MonthNames: seq<string> := [
    "January", "February", "March", "April", "May", "June", "July",
    "August", "September", "October", "November", "December",
    "Jan", "Feb", "Mar", "Apr", "May", "Jun", "Jul", "Aug", "Sep", "Oct", "Nov", "Dec"]

  function Lower(c: char): char
  {
    if 'A' <= c <= 'Z' then (c as int + 32) as char else c
  }

  /** `name` stands at `i`, letter case aside. */
  predicate NameAt(name: string, s: string, i: nat)
    requires i <= |s|
    decreases |name|
  {
    name == [] || (i < |s| && Lower(name[0]) == Lower(s[i]) && NameAt(name[1..], s, i + 1))
  }

  /** `%b`: the first month name, in list order, that stands at `i`. */
  function ReadMonth(s: string, i: nat, n: nat): (r: Option<Read>)
    requires i <= |s| && n <= |MonthNames|
    ensures r.Some? ==> i < r.value.next <= |s| && 1 <= r.value.value <= 12
    decreases |MonthNames| - n
  {
    if n == |MonthNames| then None
    else if NameAt(MonthNames[n], s, i) then
      NameAtLength(MonthNames[n], s, i);
      Some(Read(n % 12 + 1, i + |MonthNames[n]|))
    else ReadMonth(s, i, n + 1)
  }

  lemma {:induction false} NameAtLength(name: string, s: string, i: nat)
    requires i <= |s| && NameAt(name, s, i)
    ensures i + |name| <= |s|
    decreases |name|
  {
    if name != [] {
      NameAtLength(name[1..], s, i + 1);
    }
  }

  predicate CharAt(s: string, i: nat, c: char)
  {
    i < |s| && s[i] == c
  }

  /** The directives of a format: a field, or a character that must stand
      where it is. */
  datatype Directive = Day | MonthName | Year | Hour | Minute | Second | Literal(c: char)

  /** `'%d/%b/%Y:%H:%M:%S'`. */
  const TimestampFormat: seq<Directive> :=
    [Day, Literal('/'), MonthName, Literal('/'), Year, Literal(':'), Hour, Literal(':'), Minute, Literal(':'), Second]

  /** What one directive reads at `i`. */
  function ReadDirective(d: Directive, s: string, i: nat): (r: Option<Read>)
    requires i <= |s|
    ensures r.Some? ==> i < r.value.next <= |s|
  {
    match d
    case Day => ReadPadded(s, i, 1, 31)
    case MonthName => ReadMonth(s, i, 0)
    case Year => ReadYear(s, i)
    case Hour => ReadPadded(s, i, 0, 24)
    case Minute => ReadTwo(s, i, 59)
    case Second => ReadTwo(s, i, 60)
    case Literal(c) => if CharAt(s, i, c) then Some(Read(0, i + 1)) else None
  }

  /** The fields, with the one a directive read stored. */
  function Store(t: Instant, d: Directive, v: int): Instant
  {
    match d
    case Day => t.(day := v)
    case MonthName => t.(month := v)
    case Year => t.(year := v)
    case Hour => t.(hour := v)
    case Minute => t.(minute := v)
    case Second => t.(second := v)
    case Literal(_) => t
  }

  /** The directives of `fmt` read one after another from `i`; `None` as
      soon as one fails. */
  function ReadFormat(s: string, i: nat, fmt: seq<Directive>, t: Instant): Option<Instant>
    requires i <= |s|
    decreases |fmt|
  {
    if fmt == [] then Some(t)
    else
      match ReadDirective(fmt[0], s, i)
      case None => None
      case Some(r) => ReadFormat(s, r.next, fmt[1..], Store(t, fmt[0], r.value))
  }

  /** `Date._strptime(s, '%d/%b/%Y:%H:%M:%S')`, `None` where it returns nil. */
  function StrpTime(s: string): Option<Instant>
  {
    ReadFormat(s, 0, TimestampFormat, Instant(0, 0, 0, 0, 0, 0))
  }

  /** `-`, the log's placeholder, does not read as a time. */
  lemma DashUnread()
    ensures StrpTime("-") == None
  {
  }

  /** The ranges `_strptime` accepts for each field. */
  predicate Valid(t: Instant)
  {
    && 1 <= t.day <= 31 && 1 <= t.month <= 12 && 0 <= t.hour <= 24
    && 0 <= t.minute <= 59 && 0 <= t.second <= 60
  }

  /** `Time.mktime` takes every reading `_strptime` accepts except an hour
      of 24 with a minute or second other than 0, for which it raises
      ArgumentError. */
  predicate MktimeRejects(t: Instant)
  {
    t.hour == 24 && (t.minute != 0 || t.second != 0)
  }

  function Pad2(n: nat): (s: string)
    requires n < 100
    ensures |s| == 2
  {
    [DigitChar(n / 10), DigitChar(n % 10)]
  }

  /** A timestamp as an access log writes it, `%d/%b/%Y:%H:%M:%S`. */
  function Format(t: Instant): string
    requires Valid(t)
  {
    Pad2(t.day) + "/" + MonthNames[11 + t.month] + "/" + ShowInt(t.year) + ":"
      + Pad2(t.hour) + ":" + Pad2(t.minute) + ":" + Pad2(t.second)
  }

  lemma DigitCountExact(s: string, i: nat, k: nat, width: nat)
    requires i + k <= |s| && k <= width
    requires forall j | i <= j < i + k :: IsDigit(s[j])
    requires k == width || i + k == |s| || !IsDigit(s[i + k])
    ensures DigitCount(s, i, width) == k
    decreases k
  {
    if k > 0 {
      DigitCountExact(s, i + 1, k - 1, width - 1);
    }
  }

  lemma ReadPad2(s: string, i: nat, n: nat)
    requires n < 100 && i + 2 <= |s| && s[i..i + 2] == Pad2(n)
    ensures ReadDigits(s, i, 2) == Some(Read(n, i + 2))
    ensures i < |s| && s[i] != ' '
  {
    assert s[i] == Pad2(n)[0] && s[i + 1] == Pad2(n)[1];
    DigitCountExact(s, i, 2, 2);
    var ds := s[i..i + 2];
    assert ds[..1] == [ds[0]];
    assert [ds[0]][..0] == [];
    assert Value(ds[..1]) == n / 10;
    assert Value(ds) == (n / 10) * 10 + n % 10;
  }

  /** A maximal run of digits at `j` is read whole. */
  lemma ReadDigitRun(s: string, j: nat, ds: string)
    requires ds != [] && AllDigits(ds)
    requires j + |ds| <= |s| && s[j..j + |ds|] == ds
    requires j + |ds| < |s| ==> !IsDigit(s[j + |ds|])
    ensures ReadDigits(s, j, |s| - j) == Some(Read(Value(ds), j + |ds|))
  {
    forall k | j <= k < j + |ds| ensures IsDigit(s[k]) {
      assert s[k] == ds[k - j];
    }
    DigitCountExact(s, j, |ds|, |s| - j);
  }

  /** `%Y` reads a maximal run of digits... */
  lemma ReadYearUnsigned(s: string, i: nat, ds: string)
    requires ds != [] && AllDigits(ds)
    requires i + |ds| <= |s| && s[i..i + |ds|] == ds
    requires i + |ds| < |s| ==> !IsDigit(s[i + |ds|])
    ensures ReadYear(s, i) == Some(Read(Value(ds), i + |ds|))
  {
    assert s[i] == ds[0];
    ReadDigitRun(s, i, ds);
  }

  /** ... and a minus sign before one. */
  lemma ReadYearNegative(s: string, i: nat, v: nat, next: nat)
    requires i < |s| && s[i] == '-'
    requires ReadDigits(s, i + 1, |s| - (i + 1)) == Some(Read(v, next))
    ensures ReadYear(s, i) == Some(Read(-(v as int), next))
  {
    ReadYearMinus(s, i);
  }

  lemma ReadYearMinus(s: string, i: nat)
    requires i < |s| && s[i] == '-'
    ensures ReadYear(s, i) == Signed(ReadDigits(s, i + 1, |s| - (i + 1)), true)
  {
  }

  lemma ReadShowInt(s: string, i: nat, y: int)
    requires i + |ShowInt(y)| <= |s| && s[i..i + |ShowInt(y)|] == ShowInt(y)
    requires i + |ShowInt(y)| < |s| ==> !IsDigit(s[i + |ShowInt(y)|])
    ensures ReadYear(s, i) == Some(Read(y, i + |ShowInt(y)|))
  {
    if y < 0 {
      ReadShowNegative(s, i, y);
    } else {
      var ds := ShowNat(y);
      ValueShowNat(y);
      ReadYearUnsigned(s, i, ds);
    }
  }

  lemma ReadShowNegative(s: string, i: nat, y: int)
    requires y < 0
    requires i + |ShowInt(y)| <= |s| && s[i..i + |ShowInt(y)|] == ShowInt(y)
    requires i + |ShowInt(y)| < |s| ==> !IsDigit(s[i + |ShowInt(y)|])
    ensures ReadYear(s, i) == Some(Read(y, i + |ShowInt(y)|))
  {
    var m: nat := -y;
    var ds := ShowNat(m);
    var t := ShowInt(y);
    assert t == "-" + ds;
    assert s[i] == t[0] == '-' by {
      assert s[i..i + |t|][0] == s[i];
    }
    assert s[i + 1..i + 1 + |ds|] == ds by {
      assert s[i + 1..i + 1 + |ds|] == s[i..i + |t|][1..];
    }
    ValueShowNat(m);
    ReadDigitRun(s, i + 1, ds);
    ReadYearNegative(s, i, m, i + 1 + |ds|);
  }

  /** The month the first three letters of a month name stand for, letter
      case aside; 0 for letters that begin no month name. */
  function KeyMonth(a: char, b: char, c: char): int
  {
    match (a, b, c)
    case ('j', 'a', 'n') => 1
    case ('f', 'e', 'b') => 2
    case ('m', 'a', 'r') => 3
    case ('a', 'p', 'r') => 4
    case ('m', 'a', 'y') => 5
    case ('j', 'u', 'n') => 6
    case ('j', 'u', 'l') => 7
    case ('a', 'u', 'g') => 8
    case ('s', 'e', 'p') => 9
    case ('o', 'c', 't') => 10
    case ('n', 'o', 'v') => 11
    case ('d', 'e', 'c') => 12
    case _ => 0
  }

  /** Every month name, full or abbreviated, begins with three letters that
      name its own month, and a longer name has a letter after them. */
  lemma MonthNameFacts(n: nat)
    requires n < |MonthNames|
    ensures var name := MonthNames[n];
      && |name| >= 3
      && Key(name) == n % 12 + 1 == (if n < 12 then n + 1 else n - 11)
      && (|name| > 3 ==> name[3] != '/')
  {
    assert n == 0 || n == 1 || n == 2 || n == 3 || n == 4 || n == 5 || n == 6 || n == 7
      || n == 8 || n == 9 || n == 10 || n == 11 || n == 12 || n == 13 || n == 14 || n == 15
      || n == 16 || n == 17 || n == 18 || n == 19 || n == 20 || n == 21 || n == 22 || n == 23;
  }

  lemma {:induction false} NameAtChar(name: string, s: string, i: nat, k: nat)
    requires i <= |s| && NameAt(name, s, i) && k < |name|
    ensures i + k < |s| && Lower(name[k]) == Lower(s[i + k])
    decreases k
  {
    if k > 0 {
      NameAtChar(name[1..], s, i + 1, k - 1);
    }
  }

  lemma {:induction false} NameAtExact(name: string, s: string, i: nat)
    requires i + |name| <= |s| && s[i..i + |name|] == name
    ensures NameAt(name, s, i)
    decreases |name|
  {
    if name != [] {
      assert s[i] == name[0];
      assert s[i + 1..i + 1 + |name[1..]|] == name[1..];
      NameAtExact(name[1..], s, i + 1);
    }
  }

  /** The month the first three letters of `name` stand for. */
  function Key(name: string): int
    requires |name| >= 3
  {
    KeyMonth(Lower(name[0]), Lower(name[1]), Lower(name[2]))
  }

  /** A name that matches three letters followed by a slash has three letters
      itself, and the same ones, letter case aside. */
  lemma MatchedName(name: string, abbr: string, s: string, i: nat)
    requires |name| >= 3 && (|name| > 3 ==> name[3] != '/')
    requires |abbr| == 3 && i + 4 <= |s| && s[i..i + 3] == abbr && s[i + 3] == '/'
    requires NameAt(name, s, i)
    ensures |name| == 3 && Key(name) == Key(abbr)
  {
    assert s[i] == abbr[0] && s[i + 1] == abbr[1] && s[i + 2] == abbr[2];
    NameAtChar(name, s, i, 0);
    NameAtChar(name, s, i, 1);
    NameAtChar(name, s, i, 2);
    if |name| > 3 {
      NameAtChar(name, s, i, 3);
    }
  }

  /** From any position in the list up to the abbreviation that stands at
      `i`, the month read is that abbreviation's: an earlier name either
      fails to match or names the same month. */
  lemma {:induction false} ReadMonthFrom(s: string, i: nat, m: int, n: nat)
    requires 1 <= m <= 12 && i + 4 <= |s|
    requires s[i..i + 3] == MonthNames[11 + m] && s[i + 3] == '/'
    requires n <= 11 + m
    ensures ReadMonth(s, i, n) == Some(Read(m, i + 3))
    decreases 11 + m - n
  {
    var name := MonthNames[n];
    if NameAt(name, s, i) {
      MonthNameFacts(n);
      MonthNameFacts(11 + m);
      MatchedName(name, MonthNames[11 + m], s, i);
    } else if n == 11 + m {
      NameAtExact(name, s, i);
      assert false;
    } else {
      ReadMonthFrom(s, i, m, n + 1);
      assert ReadMonth(s, i, n) == ReadMonth(s, i, n + 1);
    }
  }

  /** `%b` reads an abbreviation that a slash follows as its month. */
  lemma ReadMonthName(s: string, i: nat, m: int)
    requires 1 <= m <= 12 && i + 4 <= |s|
    requires s[i..i + 3] == MonthNames[11 + m] && s[i + 3] == '/'
    ensures ReadMonth(s, i, 0) == Some(Read(m, i + 3))
  {
    ReadMonthFrom(s, i, m, 0);
  }

  lemma PrefixOf(a: string, b: string, s: string)
    requires a + b <= s
    ensures a <= s
  {
    assert s[..|a|] == (a + b)[..|a|];
  }

  lemma PieceAt(a: string, b: string, s: string)
    requires a + b <= s
    ensures |a| + |b| <= |s| && s[|a|..|a| + |b|] == b
  {
    assert s[|a|..|a| + |b|] == (a + b)[|a|..];
  }

  /** Two padded digits written after `a` are read back. */
  lemma Pad2At(s: string, a: string, n: nat)
    requires n < 100 && a + Pad2(n) <= s
    ensures ReadDigits(s, |a|, 2) == Some(Read(n, |a| + 2)) && s[|a|] != ' '
  {
    PieceAt(a, Pad2(n), s);
    ReadPad2(s, |a|, n);
  }

  lemma CharAfter(s: string, a: string, c: char)
    requires a + [c] <= s
    ensures CharAt(s, |a|, c)
  {
    PieceAt(a, [c], s);
  }

  /** A directive that reads hands the rest of the format the position
      after it. */
  lemma ReadStep(s: string, i: nat, fmt: seq<Directive>, t: Instant, r: Read)
    requires i <= |s| && fmt != [] && ReadDirective(fmt[0], s, i) == Some(r)
    ensures r.next <= |s|
    ensures ReadFormat(s, i, fmt, t) == ReadFormat(s, r.next, fmt[1..], Store(t, fmt[0], r.value))
  {
  }

  /** `s` opens with a day, a slash, a month name and a slash. */
  predicate DateReads(s: string, day: int, month: int)
  {
    && ReadPadded(s, 0, 1, 31) == Some(Read(day, 2)) && CharAt(s, 2, '/')
    && ReadMonth(s, 3, 0) == Some(Read(month, 6)) && CharAt(s, 6, '/')
  }

  /** A year starts at index 7 of `s` and a colon follows it at `q`. */
  predicate YearReads(s: string, year: int, q: nat)
  {
    7 <= |s| && ReadYear(s, 7) == Some(Read(year, q)) && CharAt(s, q, ':')
  }

  /** The hour, minute and second of `t`, separated by colons, start at `p`. */
  predicate ClockReads(s: string, t: Instant, p: nat)
  {
    && p <= |s|
    && ReadPadded(s, p, 0, 24) == Some(Read(t.hour, p + 2)) && CharAt(s, p + 2, ':')
    && ReadTwo(s, p + 3, 59) == Some(Read(t.minute, p + 5)) && CharAt(s, p + 5, ':')
    && ReadTwo(s, p + 6, 60) == Some(Read(t.second, p + 8))
  }

  /** The day, the month and their separators read. */
  lemma ReadDatePart(s: string, day: int, month: int)
    requires DateReads(s, day, month)
    ensures StrpTime(s) == ReadFormat(s, 7, TimestampFormat[4..], Instant(0, month, day, 0, 0, 0))
  {
    var f := TimestampFormat;
    var t1 := Instant(0, 0, day, 0, 0, 0);
    ReadStep(s, 0, f, Instant(0, 0, 0, 0, 0, 0), Read(day, 2));
    ReadStep(s, 2, f[1..], t1, Read(0, 3));
    ReadStep(s, 3, f[2..], t1, Read(month, 6));
    ReadStep(s, 6, f[3..], t1.(month := month), Read(0, 7));
  }

  /** The year and the colon after it read. */
  lemma ReadYearPart(s: string, t: Instant, year: int, q: nat)
    requires YearReads(s, year, q)
    ensures q + 1 <= |s|
    ensures ReadFormat(s, 7, TimestampFormat[4..], t) == ReadFormat(s, q + 1, TimestampFormat[6..], t.(year := year))
  {
    var f := TimestampFormat;
    ReadStep(s, 7, f[4..], t, Read(year, q));
    ReadStep(s, q, f[5..], t.(year := year), Read(0, q + 1));
  }

  /** The hour, the minute, the second and their separators read. */
  lemma ReadClockPart(s: string, t: Instant, p: nat)
    requires ClockReads(s, t, p)
    ensures ReadFormat(s, p, TimestampFormat[6..], t.(hour := 0, minute := 0, second := 0)) == Some(t)
  {
    var f := TimestampFormat;
    var t3 := t.(hour := 0, minute := 0, second := 0);
    var t4 := t3.(hour := t.hour);
    var t5 := t4.(minute := t.minute);
    ReadStep(s, p, f[6..], t3, Read(t.hour, p + 2));
    ReadStep(s, p + 2, f[7..], t4, Read(0, p + 3));
    ReadStep(s, p + 3, f[8..], t4, Read(t.minute, p + 5));
    ReadStep(s, p + 5, f[9..], t5, Read(0, p + 6));
    ReadStep(s, p + 6, f[10..], t5, Read(t.second, p + 8));
    assert f[10..][1..] == [];
  }

  /** `StrpTime` succeeds when every field reads and every separator is in
      place. */
  lemma StrpTimeFields(s: string, t: Instant, q: nat)
    requires DateReads(s, t.day, t.month)
    requires YearReads(s, t.year, q)
    requires ClockReads(s, t, q + 1)
    ensures StrpTime(s) == Some(t)
  {
    ReadDatePart(s, t.day, t.month);
    ReadTimePart(s, t, q);
  }

  /** From the year on, the fields read complete the timestamp. */
  lemma ReadTimePart(s: string, t: Instant, q: nat)
    requires YearReads(s, t.year, q)
    requires ClockReads(s, t, q + 1)
    ensures ReadFormat(s, 7, TimestampFormat[4..], Instant(0, t.month, t.day, 0, 0, 0)) == Some(t)
  {
    var t0 := Instant(0, t.month, t.day, 0, 0, 0);
    ReadYearPart(s, t0, t.year, q);
    assert t0.(year := t.year) == t.(hour := 0, minute := 0, second := 0);
    ReadClockPart(s, t, q + 1);
  }

  /** The day and the month of a formatted timestamp read back. */
  lemma FormatDate(t: Instant, s: string)
    requires Valid(t)
    requires Pad2(t.day) + "/" + MonthNames[11 + t.month] + "/" <= s
    ensures DateReads(s, t.day, t.month)
  {
    var mo := MonthNames[11 + t.month];
    var p1 := Pad2(t.day) + "/";
    PrefixOf(p1, mo + "/", s);
    PrefixOf(Pad2(t.day), "/", s);
    assert [] + Pad2(t.day) == Pad2(t.day);
    Pad2At(s, [], t.day);
    CharAfter(s, Pad2(t.day), '/');
    PieceAt(p1, mo, s);
    CharAfter(s, p1 + mo, '/');
    ReadMonthName(s, 3, t.month);
  }

  /** The year of a formatted timestamp reads back, up to the colon. */
  lemma FormatYear(t: Instant, s: string, p2: string)
    requires |p2| == 7 && p2 + ShowInt(t.year) + ":" <= s
    ensures YearReads(s, t.year, 7 + |ShowInt(t.year)|)
  {
    var y := ShowInt(t.year);
    PieceAt(p2, y, s);
    CharAfter(s, p2 + y, ':');
    ReadShowInt(s, 7, t.year);
  }

  /** The hour, minute and second of a formatted timestamp read back. */
  lemma FormatClock(t: Instant, s: string, p3: string)
    requires Valid(t)
    requires p3 + Pad2(t.hour) + ":" + Pad2(t.minute) + ":" + Pad2(t.second) <= s
    ensures ClockReads(s, t, |p3|)
  {
    var p4 := p3 + Pad2(t.hour) + ":";
    var p5 := p4 + Pad2(t.minute) + ":";
    PrefixOf(p5, Pad2(t.second), s);
    PrefixOf(p4 + Pad2(t.minute), ":", s);
    PrefixOf(p4, Pad2(t.minute), s);
    PrefixOf(p3 + Pad2(t.hour), ":", s);
    PrefixOf(p3, Pad2(t.hour), s);
    Pad2At(s, p3, t.hour);
    CharAfter(s, p3 + Pad2(t.hour), ':');
    Pad2At(s, p4, t.minute);
    CharAfter(s, p4 + Pad2(t.minute), ':');
    Pad2At(s, p5, t.second);
  }

  /** Every field of a formatted timestamp, and every separator, reads back
      wherever the timestamp opens the text. */
  lemma FormattedReads(t: Instant, s: string)
    requires Valid(t) && Format(t) <= s
    ensures var q := 7 + |ShowInt(t.year)|;
      DateReads(s, t.day, t.month) && YearReads(s, t.year, q) && ClockReads(s, t, q + 1)
  {
    var p2 := Pad2(t.day) + "/" + MonthNames[11 + t.month] + "/";
    var p3 := p2 + ShowInt(t.year) + ":";
    FormatPrefixes(t, s);
    FormatClock(t, s, p3);
    FormatYear(t, s, p2);
    FormatDate(t, s);
  }

  /** The date, and the date with the year, open any text `Format` opens. */
  lemma FormatPrefixes(t: Instant, s: string)
    requires Valid(t) && Format(t) <= s
    ensures Pad2(t.day) + "/" + MonthNames[11 + t.month] + "/" <= s
    ensures Pad2(t.day) + "/" + MonthNames[11 + t.month] + "/" + ShowInt(t.year) + ":" <= s
  {
    var p2 := Pad2(t.day) + "/" + MonthNames[11 + t.month] + "/";
    var y := ShowInt(t.year);
    var p3 := p2 + y + ":";
    PrefixOf(p3 + Pad2(t.hour) + ":" + Pad2(t.minute) + ":", Pad2(t.second), s);
    PrefixOf(p3 + Pad2(t.hour) + ":" + Pad2(t.minute), ":", s);
    PrefixOf(p3 + Pad2(t.hour) + ":", Pad2(t.minute), s);
    PrefixOf(p3 + Pad2(t.hour), ":", s);
    PrefixOf(p3, Pad2(t.hour), s);
    PrefixOf(p2 + y, ":", s);
    PrefixOf(p2, y, s);
  }

  /** Reading back what `Format` writes gives the same fields, whatever
      follows the seconds. */
  lemma StrpTimeFormat(t: Instant, rest: string)
    requires Valid(t)
    ensures StrpTime(Format(t) + rest) == Some(t)
  {
    var s := Format(t) + rest;
    FormattedReads(t, s);
    StrpTimeFields(s, t, 7 + |ShowInt(t.year)|);
  }
}
