/**
 * `ApacheCombinedLogParser#parse` and `#each`: a line of an access log in
 * the combined format becomes a map from field names to values.
 *
 * The steps, in the order the parser takes them: every field name is set to
 * nil; each `\"` in the line becomes `'`; the line is matched against the
 * combined format; on a match the nine captures are assigned to the field
 * names by position, `bytes` is read as an integer, a timestamp in the
 * `%d/%b/%Y:%H:%M:%S` form becomes a time through `Time.mktime` (which
 * raises for an hour of 24 with a minute or second other than 0), the
 * request is split into `method` and `path`, and finally every field whose
 * value is `-` becomes nil. `each` stops at the first line that raises.
 */
module ApacheLog {
  import opened Wrappers
  import opened Sequences
  import opened Rewrite
  import opened RubyText
  import opened LogTime
  import opened LogPattern
  import LineSplit

  datatype Field =
    | IpAddress | Identd | User | Timestamp | Request | ResponseCode | Bytes | Referrer | UserAgent
    | Method | Path

  /** The field names, in the order of the pattern's groups. */
  const FieldNames: seq<Field> :=
    [IpAddress, Identd, User, Timestamp, Request, ResponseCode, Bytes, Referrer, UserAgent]

  /** A field's place among the groups; `method` and `path` come after
      them. */
  function Position(f: Field): (p: nat)
    ensures p < 9 <==> f in FieldNames
  {
    match f
    case IpAddress => 0
    case Identd => 1
    case User => 2
    case Timestamp => 3
    case Request => 4
    case ResponseCode => 5
    case Bytes => 6
    case Referrer => 7
    case UserAgent => 8
    case Method => 9
    case Path => 10
  }

  /** A field value: nil, a string, an integer or a time. */
  datatype Value = Nil | Str(text: string) | Int(number: int) | Time(instant: Instant)

  type Record = map<Field, Value>

  /** `line.gsub('\"', "'")`: the two characters backslash and double quote
      become one single quote. */
  function Prepass(line: string): string
  {
    ReplaceAll(line, ['\\', '"'], "'")
  }

  /** The map the parser starts from: every field name, set to nil. */
  function AllNil(): Record
  {
    map f | f in FieldNames :: Nil
  }

  /** What `parse` raises: the ArgumentError of `Time.mktime`. */
  datatype ParseError = ArgumentError

  /** The timestamp reads as `%d/%b/%Y:%H:%M:%S`, but with fields
      `Time.mktime` rejects. */
  predicate StampRejected(text: string)
  {
    StrpTime(text).Some? && MktimeRejects(StrpTime(text).value)
  }

  /** The timestamp as a time where `_strptime` reads one that `Time.mktime`
      takes, as the text otherwise. (The parser as written raises for a
      reading `Time.mktime` rejects; `ParseOutcome` models that.) */
  function TimeOrText(text: string): Value
  {
    match StrpTime(text)
    case Some(t) => if MktimeRejects(t) then Str(text) else Time(t)
    case None => Str(text)
  }

  /** One element of `request.split(/\s/)` in a multiple assignment: nil
      where the split gave fewer elements. */
  function Token(words: seq<string>, n: nat): Value
  {
    if n < |words| then Str(words[n]) else Nil
  }

  /** `fields[k] = nil if v == '-'`. */
  function Dash(v: Value): Value
  {
    if v == Str("-") then Nil else v
  }

  /** The fields a match gives: the nine field names, then `method` and
      `path`. */
  const MatchedFields: seq<Field> := FieldNames + [Method, Path]

  /** The fields after `each_with_index` assigns the captures by position. */
  function Captured(caps: seq<string>): Record
    requires |caps| == 9
  {
    map f | f in FieldNames :: Str(caps[Position(f)])
  }

  /** The captured fields after the three conversions: `bytes` read by
      `to_i`, the timestamp replaced by a time where `_strptime` reads one
      that `Time.mktime` takes, and `method` and `path` set from the first two words of the request. */
  function Converted(caps: seq<string>): Record
    requires |caps| == 9
  {
    var words := SplitWs(caps[4]);
    Captured(caps)[Bytes := Int(ToI(caps[6]))][Timestamp := TimeOrText(caps[3])]
      [Method := Token(words, 0)][Path := Token(words, 1)]
  }

  /** The conversions of captures whose byte count, timestamp and request
      read as `n`, `t` and at least two words. */
  lemma ConvertedRead(caps: seq<string>, n: int, t: Instant, words: seq<string>)
    requires |caps| == 9 && ToI(caps[6]) == n
    requires StrpTime(caps[3]) == Some(t) && !MktimeRejects(t)
    requires SplitWs(caps[4]) == words && |words| >= 2
    ensures Converted(caps) ==
      Captured(caps)[Bytes := Int(n)][Timestamp := Time(t)][Method := Str(words[0])][Path := Str(words[1])]
  {
  }

  /** The captures the conversions read. */
  lemma CapturedTexts(caps: seq<string>)
    requires |caps| == 9
    ensures var c := Captured(caps);
      c[Bytes] == Str(caps[6]) && c[Timestamp] == Str(caps[3]) && c[Request] == Str(caps[4])
  {
  }

  /** The seven fields without a conversion keep their capture. */
  lemma ConvertedPlain(caps: seq<string>, f: Field)
    requires |caps| == 9 && f in FieldNames && f != Bytes && f != Timestamp
    ensures f in Converted(caps) && Converted(caps)[f] == Str(caps[Position(f)])
  {
    assert f != Method && f != Path by {
      assert Position(f) < 9;
    }
    var words := SplitWs(caps[4]);
    Kept(Captured(caps), f, Int(ToI(caps[6])), TimeOrText(caps[3]), Token(words, 0), Token(words, 1));
  }

  lemma Kept(r: Record, f: Field, bytes: Value, stamp: Value, verb: Value, target: Value)
    requires f in r && f != Bytes && f != Timestamp && f != Method && f != Path
    ensures var c := r[Bytes := bytes][Timestamp := stamp][Method := verb][Path := target];
      f in c && c[f] == r[f]
  {
  }

  /** Storing a key's own value again changes nothing. */
  lemma Unchanged(r: Record, k: Field)
    requires k in r
    ensures r[k := r[k]] == r
  {
  }

  /** Every `-` value replaced by nil. */
  function Normalised(r: Record): Record
  {
    map k | k in r :: Dash(r[k])
  }

  /** The `-` pass on a record with a single `-` value sets that field to
      nil and nothing else. */
  lemma NormalisedOneDash(r: Record, k: Field)
    requires k in r && r[k] == Str("-")
    requires forall f | f in r && f != k :: r[f] != Str("-")
    ensures Normalised(r) == r[k := Nil]
  {
  }

  /** The fields derived from the nine captures. */
  function Derive(caps: seq<string>): Record
    requires |caps| == 9
  {
    Normalised(Converted(caps))
  }

  /** `parse(line)`, with a timestamp `Time.mktime` rejects kept as text
      instead of raising: the fields it returns whenever it returns. */
  function Parse(line: string): Record
  {
    match MatchLine(Prepass(line))
    case None => AllNil()
    case Some(caps) =>
      MatchLineFits(Prepass(line));
      Derive(caps)
  }

  /** `parse(line)` raises: the line matches and `Time.mktime` rejects the
      reading of its timestamp. */
  predicate Raises(line: string)
  {
    match MatchLine(Prepass(line))
    case None => false
    case Some(caps) => |caps| == 9 && StampRejected(caps[3])
  }

  /** `parse(line)` as written: the fields, or the ArgumentError that
      `Time.mktime` raises. */
  function ParseOutcome(line: string): Result<Record, ParseError>
  {
    if Raises(line) then Err(ArgumentError) else Ok(Parse(line))
  }

  /** The text that begins with a double quote after the pre-pass began
      with one before it. */
  lemma PrepassHead(s: string)
    ensures Prepass(s) != [] && Prepass(s)[0] == '"' ==> s != [] && s[0] == '"'
  {
  }

  /** After the pre-pass no backslash is followed by a double quote. */
  lemma {:induction false} PrepassNoEscapedQuote(s: string)
    ensures forall i: nat :: !OccursAt(Prepass(s), ['\\', '"'], i)
    decreases |s|
  {
    var pat := ['\\', '"'];
    var out := Prepass(s);
    if s != [] {
      var skip := if pat <= s then 2 else 1;
      var rest := Prepass(s[skip..]);
      PrepassNoEscapedQuote(s[skip..]);
      assert out == (if pat <= s then "'" else [s[0]]) + rest;
      forall i: nat ensures !OccursAt(out, pat, i) {
        if i == 0 {
          if !(pat <= s) && s[0] == '\\' && rest != [] {
            PrepassHead(s[1..]);
            assert |s| < 2 || s[1] != '"' by {
              if |s| >= 2 {
                assert s[..2] == [s[0], s[1]];
              }
            }
            assert out[1] == rest[0];
          }
        } else if i + 2 <= |out| {
          assert out[i..i + 2] == rest[i - 1..i + 1];
          assert !OccursAt(rest, pat, i - 1);
        }
      }
    }
  }

  /** A line without `\"` passes the pre-pass unchanged. */
  lemma PrepassUnchanged(s: string)
    requires forall i: nat :: !OccursAt(s, ['\\', '"'], i)
    ensures Prepass(s) == s
  {
    ReplaceAllAbsent(s, ['\\', '"'], "'");
  }

  /** Applying the pre-pass twice is applying it once. */
  lemma PrepassIdempotent(s: string)
    ensures Prepass(Prepass(s)) == Prepass(s)
  {
    PrepassNoEscapedQuote(s);
    PrepassUnchanged(Prepass(s));
  }

  /** A line the pattern does not match gives the nine field names, all
      nil; a line it matches gives `method` and `path` as well. */
  lemma ParseKeys(line: string)
    ensures var r := Parse(line);
      && (MatchLine(Prepass(line)).None? ==> r == AllNil() && ParseOutcome(line) == Ok(r))
      && (forall f :: f in r <==> f in FieldNames || (MatchLine(Prepass(line)).Some? && (f == Method || f == Path)))
  {
  }

  /** The fields are nil exactly when the line does not match. */
  lemma ParseNilIffNoMatch(line: string)
    ensures Parse(line) == AllNil() <==> MatchLine(Prepass(line)).None?
  {
    ParseKeys(line);
    assert Method !in AllNil();
  }

  /** ... which is when there is no match of the combined format anywhere
      in the line, after the pre-pass. */
  lemma ParseAllNil(line: string)
    ensures Parse(line) == AllNil() <==> NoneBefore(Combined, Prepass(line), 0, |Prepass(line)| + 1)
  {
    CombinedShape();
    MatchFromNone(Combined, Prepass(line), 0);
    ParseNilIffNoMatch(line);
  }

  /** On a match the fields are the ones derived from the captures. */
  lemma ParseMatched(line: string, caps: seq<string>)
    requires MatchLine(Prepass(line)) == Some(caps)
    ensures |caps| == 9 && Parse(line) == Derive(caps)
  {
    MatchLineFits(Prepass(line));
  }

  /** On a match each capture has the form its group allows. */
  lemma ParseCaptures(line: string, caps: seq<string>)
    requires MatchLine(Prepass(line)) == Some(caps)
    ensures CombinedFields(caps)
  {
    MatchLineFits(Prepass(line));
    CombinedFits(caps);
  }

  /** On a match the captures are assigned to the field names by position;
      those left as text are nil where they are `-`. */
  lemma ParsePositions(line: string, caps: seq<string>)
    requires MatchLine(Prepass(line)) == Some(caps)
    ensures |caps| == 9
    ensures forall f | f in FieldNames && f != Timestamp && f != Bytes ::
      Parse(line)[f] == if caps[Position(f)] == "-" then Nil else Str(caps[Position(f)])
  {
    MatchLineFits(Prepass(line));
    forall f | f in FieldNames && f != Timestamp && f != Bytes
      ensures Parse(line)[f] == if caps[Position(f)] == "-" then Nil else Str(caps[Position(f)])
    {
      ConvertedPlain(caps, f);
    }
  }

  /** `bytes` is always an integer after a match, never nil: the value of
      its leading digits, 0 for `-` or an empty field. */
  lemma ParseBytes(line: string, caps: seq<string>)
    requires MatchLine(Prepass(line)) == Some(caps)
    ensures |caps| == 9 && Parse(line)[Bytes] == Int(ToI(caps[6]))
    ensures caps[6] == "-" || caps[6] == "" ==> Parse(line)[Bytes] == Int(0)
    ensures caps[6] != "" && AllDigits(caps[6]) ==> Parse(line)[Bytes] == Int(RubyText.Value(caps[6]))
  {
    MatchLineFits(Prepass(line));
    ToIEmptyOrDash();
    if caps[6] != "" && AllDigits(caps[6]) {
      ToIDigits(caps[6]);
    }
  }

  /** The status code stays a string of digits, never nil. */
  lemma ParseResponseCode(line: string, caps: seq<string>)
    requires MatchLine(Prepass(line)) == Some(caps)
    ensures |caps| == 9 && AllDigits(caps[5]) && Parse(line)[ResponseCode] == Str(caps[5])
  {
    ParseCaptures(line, caps);
    DigitText(caps[5]);
    ParsePositions(line, caps);
    assert Position(ResponseCode) == 5;
  }

  /** A capture of `\d*` is a run of digits. */
  lemma DigitText(t: string)
    requires Text(Digit, t)
    ensures AllDigits(t) && t != "-"
  {
    forall k | 0 <= k < |t| ensures IsDigit(t[k]) {
      assert In(Digit, t[k]);
    }
    assert t == [] || IsDigit(t[0]);
  }

  /** The timestamp becomes a time when it reads as `%d/%b/%Y:%H:%M:%S`
      and `Time.mktime` takes the reading; `parse` raises exactly when
      `Time.mktime` rejects it; otherwise the text stays, nil if it is `-`. */
  lemma ParseTimestamp(line: string, caps: seq<string>)
    requires MatchLine(Prepass(line)) == Some(caps)
    ensures |caps| == 9
    ensures ParseOutcome(line).Err? <==> StampRejected(caps[3])
    ensures StampRejected(caps[3]) ==> Parse(line)[Timestamp] == Str(caps[3])
    ensures StrpTime(caps[3]).Some? && !MktimeRejects(StrpTime(caps[3]).value) ==>
      ParseOutcome(line) == Ok(Parse(line)) && Parse(line)[Timestamp] == Time(StrpTime(caps[3]).value)
    ensures StrpTime(caps[3]).None? ==>
      ParseOutcome(line) == Ok(Parse(line)) &&
      Parse(line)[Timestamp] == if caps[3] == "-" then Nil else Str(caps[3])
  {
    MatchLineFits(Prepass(line));
    RaisesAt(line, caps);
    assert Parse(line) == Derive(caps);
    DeriveStamp(caps);
    DashUnread();
  }

  /** A matched line raises exactly when its timestamp is rejected. */
  lemma RaisesAt(line: string, caps: seq<string>)
    requires MatchLine(Prepass(line)) == Some(caps)
    ensures |caps| == 9
    ensures ParseOutcome(line).Err? <==> StampRejected(caps[3])
    ensures !StampRejected(caps[3]) ==> ParseOutcome(line) == Ok(Parse(line))
  {
    MatchLineFits(Prepass(line));
  }

  /** The derived timestamp is the converted one after the `-` rule. */
  lemma DeriveStamp(caps: seq<string>)
    requires |caps| == 9
    ensures Timestamp in Derive(caps) && Derive(caps)[Timestamp] == Dash(TimeOrText(caps[3]))
  {
    assert Timestamp in Converted(caps);
  }

  /** Where `parse` as written returns, it returns the fields `Parse`
      gives; `Parse` never holds a time `Time.mktime` rejects, and where
      `parse` as written raises, it keeps the timestamp's text instead. */
  lemma ParseTimesInRange(line: string)
    ensures ParseOutcome(line).Ok? ==> ParseOutcome(line).value == Parse(line)
    ensures Timestamp in Parse(line)
    ensures Parse(line)[Timestamp].Time? ==> !MktimeRejects(Parse(line)[Timestamp].instant)
    ensures Raises(line) ==>
      MatchLine(Prepass(line)).Some? && |MatchLine(Prepass(line)).value| == 9 &&
      Parse(line)[Timestamp] == Str(MatchLine(Prepass(line)).value[3])
  {
    ParseKeys(line);
    if MatchLine(Prepass(line)).Some? {
      ParseTimestamp(line, MatchLine(Prepass(line)).value);
    }
  }

  /** `method` and `path` are the first two words of the request, split at
      single whitespace characters; nil where there are fewer words, or
      where the word is `-`. An empty request gives nil for both. */
  lemma ParseRequest(line: string, caps: seq<string>)
    requires MatchLine(Prepass(line)) == Some(caps)
    ensures |caps| == 9
    ensures var words := SplitWs(caps[4]);
      && Parse(line)[Method] == (if |words| > 0 && words[0] != "-" then Str(words[0]) else Nil)
      && Parse(line)[Path] == (if |words| > 1 && words[1] != "-" then Str(words[1]) else Nil)
    ensures caps[4] == "" ==> Parse(line)[Method] == Nil && Parse(line)[Path] == Nil
  {
    MatchLineFits(Prepass(line));
    SplitWsEmpty();
  }

  /** After parsing no field holds `-`. */
  lemma ParseNormalised(line: string)
    ensures forall k | k in Parse(line) :: Parse(line)[k] != Str("-")
  {
  }

  /** The line the combined format writes for nine fields of the allowed
      forms. */
  function LogLine(caps: seq<string>): string
    requires CombinedFields(caps)
  {
    CombinedFits(caps);
    Render(Combined, caps)
  }

  /** A line written in the combined format, with no backslash in it, parses
      to the fields derived from what was written, whether or not a line
      feed ends it. */
  lemma ParseRendered(caps: seq<string>, rest: string)
    requires CombinedFields(caps)
    requires rest == [] || rest[0] == '\n'
    requires '\\' !in LogLine(caps) + rest
    ensures MatchLine(Prepass(LogLine(caps) + rest)) == Some(caps)
    ensures Parse(LogLine(caps) + rest) == Derive(caps)
  {
    var line := LogLine(caps) + rest;
    CombinedFits(caps);
    forall i: nat ensures !OccursAt(line, ['\\', '"'], i) {
      if i + 2 <= |line| {
        assert line[i] != '\\';
        assert line[i..i + 2][0] == line[i];
      }
    }
    PrepassUnchanged(line);
    MatchRendered(caps, rest);
  }

  /** The parser as written raises on a line written in the combined format
      whose timestamp reads with an hour of 24 and a minute or second other
      than 0, although `_strptime` accepts it and the parser keeps every
      other timestamp it cannot convert as text. */
  lemma RenderedStampRaises(caps: seq<string>, rest: string)
    requires CombinedFields(caps)
    requires rest == [] || rest[0] == '\n'
    requires '\\' !in LogLine(caps) + rest
    requires StampRejected(caps[3])
    ensures ParseOutcome(LogLine(caps) + rest) == Err(ArgumentError)
  {
    ParseRendered(caps, rest);
  }

  /** `10/Oct/2000:24:30:00`, followed by any zone, is such a timestamp. */
  lemma HourTwentyFour(zone: string)
    ensures StrpTime(Format(Instant(2000, 10, 10, 24, 30, 0)) + zone) == Some(Instant(2000, 10, 10, 24, 30, 0))
    ensures StampRejected(Format(Instant(2000, 10, 10, 24, 30, 0)) + zone)
  {
    var t := Instant(2000, 10, 10, 24, 30, 0);
    assert Valid(t);
    StrpTimeFormat(t, zone);
  }

  /** The timestamp of that reading, as an access log writes it. */
  lemma HourTwentyFourText()
    ensures Format(Instant(2000, 10, 10, 24, 30, 0)) == "10/Oct/2000:24:30:00"
  {
    ExampleStampParts();
    assert Pad2(24) == "24" && Pad2(30) == "30" && Pad2(0) == "00";
  }

  /** A line in the combined format is its nine captures with the
      format's separators around them. */
  lemma LogLineFields(caps: seq<string>)
    requires CombinedFields(caps)
    ensures LogLine(caps) ==
      (caps[0] + " " + caps[1] + " " + caps[2] + " " + ['['] + caps[3] + [']'] + " " + ['"'] + caps[4] + ['"'])
      + ((" " + caps[5] + " " + caps[6] + " ") + (['"'] + caps[7] + ['"'] + " " + ['"'] + caps[8] + ['"']))
  {
    RenderCombined(caps);
  }

  /** The fields of the example line in the parser's comment, one
      constant per capture. */
  const ExHost: string := "127.0.0.1"
  const ExIdentd: string := "-"
  const ExUser: string := "frank"
  const ExStamp: string := "10/Oct/2000:13:55:36 -0700"
  const ExRequest: string := "GET" + " " + ("/apache_pb.gif" + " " + "HTTP/1.0")
  const ExCode: string := "200"
  const ExBytes: string := "2326"
  const ExReferrer: string := "http://www.example.com/start.html"
  const ExAgent: string := "Mozilla/4.08 [en] (Win98; I ;Nav)"

  /** The captures of the example line. */
  const ExampleCaps: seq<string> :=
    [ExHost, ExIdentd, ExUser, ExStamp, ExRequest, ExCode, ExBytes, ExReferrer, ExAgent]

  /** The example line itself. */
  const ExampleLogLine: string :=
    (ExHost + " " + ExIdentd + " " + ExUser + " " + "[" + ExStamp + "]" + " " + "\"" + ExRequest + "\"")
    + ((" " + ExCode + " " + ExBytes + " ") + ("\"" + ExReferrer + "\"" + " " + "\"" + ExAgent + "\""))

  /** The fields the example line should give. */
  const ExampleRecord: Record := map[
    IpAddress := Str("127.0.0.1"), Identd := Nil, User := Str("frank"),
    Timestamp := Time(Instant(2000, 10, 10, 13, 55, 36)),
    Request := Str(ExRequest), ResponseCode := Str("200"), Bytes := Int(2326),
    Referrer := Str("http://www.example.com/start.html"),
    UserAgent := Str("Mozilla/4.08 [en] (Win98; I ;Nav)"),
    Method := Str("GET"), Path := Str("/apache_pb.gif")]

  /** The time of the example line. */
  const ExInstant: Instant := Instant(2000, 10, 10, 13, 55, 36)

  /** The parts of that time as an access log writes them. */
  lemma ExampleStampParts()
    ensures ShowInt(2000) == "2000" && MonthNames[21] == "Oct"
    ensures Pad2(10) == "10" && Pad2(13) == "13" && Pad2(55) == "55" && Pad2(36) == "36"
  {
    assert ShowNat(2) == "2";
    assert ShowNat(20) == "20";
    assert ShowNat(200) == "200";
  }

  /** That time as an access log writes it, with the example's zone. */
  lemma ExampleStampText()
    ensures Format(ExInstant) + " -0700" == ExStamp
  {
    ExampleStampParts();
  }

  /** `_strptime` reads the example's timestamp as that time, and
      `Time.mktime` takes it. */
  lemma ExampleStamp()
    ensures StrpTime(ExStamp) == Some(ExInstant)
    ensures !StampRejected(ExStamp)
  {
    assert Valid(ExInstant);
    StrpTimeFormat(ExInstant, " -0700");
    ExampleStampText();
  }

  /** `split` cuts the example's request into its three words. */
  lemma ExampleWords()
    ensures SplitWs(ExRequest) == ["GET", "/apache_pb.gif", "HTTP/1.0"]
  {
    var ws := ["GET", "/apache_pb.gif", "HTTP/1.0"];
    assert NoSpace(ws[0]) && NoSpace(ws[1]) && NoSpace(ws[2]);
    SplitWsJoinSpace(ws);
    assert JoinSpace(ws) == ws[0] + " " + (ws[1] + " " + ws[2]) by {
      assert ws[1..][1..] == [ws[2]];
    }
  }

  /** `to_i` reads the example's byte count. */
  lemma ExampleBytes()
    ensures ToI(ExBytes) == 2326
  {
    assert AllDigits(ExBytes);
    ToIDigits(ExBytes);
    ExampleBytesValue();
  }

  /** The digits `2326` are the number 2326. */
  lemma ExampleBytesValue()
    ensures AllDigits(ExBytes) && RubyText.Value(ExBytes) == 2326
  {
    var d := ExBytes;
    assert RubyText.Value(d[..1]) == 2 by { assert d[..1][..0] == []; }
    assert RubyText.Value(d[..2]) == 23 by { assert d[..2][..1] == d[..1]; }
    assert RubyText.Value(d[..3]) == 232 by { assert d[..3][..2] == d[..2]; }
    assert d[..|d| - 1] == d[..3];
  }

  /** The example's captures have the forms their groups allow. */
  lemma ExampleFields()
    ensures CombinedFields(ExampleCaps)
  {
    var c := ExampleCaps;
    assert c[0] == ExHost && c[1] == ExIdentd && c[2] == ExUser && c[3] == ExStamp && c[4] == ExRequest;
    assert c[5] == ExCode && c[6] == ExBytes && c[7] == ExReferrer && c[8] == ExAgent;
    ExampleLeadingForms();
    ExampleTrailingForms();
  }

  /** The forms of the example's fields up to the request. */
  lemma ExampleLeadingForms()
    ensures Text(NonSpace, ExHost) && Text(NonSpace, ExIdentd) && Text(NonSpace, ExUser)
    ensures Text(Except(']'), ExStamp) && Text(Except('"'), ExRequest)
  {
  }

  /** The forms of the example's fields after the request. */
  lemma ExampleTrailingForms()
    ensures Text(Digit, ExCode) && Text(NonSpace, ExBytes)
    ensures Text(Except('"'), ExReferrer) && Text(Except('"'), ExAgent)
  {
  }

  /** The combined format writes the example's captures as the example
      line. */
  lemma ExampleText()
    ensures CombinedFields(ExampleCaps)
    ensures LogLine(ExampleCaps) == ExampleLogLine
  {
    ExampleFields();
    LogLineFields(ExampleCaps);
  }

  /** No field of the example before the referrer holds a backslash. */
  lemma ExampleLeadingNoBackslash()
    ensures '\\' !in ExHost && '\\' !in ExIdentd && '\\' !in ExUser
    ensures '\\' !in ExStamp && '\\' !in ExRequest && '\\' !in ExCode && '\\' !in ExBytes
  {
  }

  /** Nor does the referrer or the user agent. */
  lemma ExampleTrailingNoBackslash()
    ensures '\\' !in ExReferrer && '\\' !in ExAgent
  {
  }

  /** The example line holds no backslash, so the pre-pass leaves it as
      it is. */
  lemma ExampleNoBackslash(rest: string)
    requires rest == "" || rest == "\n"
    ensures '\\' !in ExampleLogLine + rest
  {
    ExampleLeadingNoBackslash();
    ExampleTrailingNoBackslash();
  }

  /** The example's captures assigned by position. */
  lemma ExampleCaptured()
    ensures Captured(ExampleCaps) == map[
      IpAddress := Str(ExHost), Identd := Str(ExIdentd), User := Str(ExUser),
      Timestamp := Str(ExStamp), Request := Str(ExRequest), ResponseCode := Str(ExCode),
      Bytes := Str(ExBytes), Referrer := Str(ExReferrer), UserAgent := Str(ExAgent)]
  {
  }

  /** The example's fields after the conversions. */
  const ExampleConverted: Record := map[
    IpAddress := Str(ExHost), Identd := Str(ExIdentd), User := Str(ExUser),
    Timestamp := Str(ExStamp), Request := Str(ExRequest), ResponseCode := Str(ExCode),
    Bytes := Str(ExBytes), Referrer := Str(ExReferrer), UserAgent := Str(ExAgent)]
    [Bytes := Int(2326)][Timestamp := Time(ExInstant)]
    [Method := Str("GET")][Path := Str("/apache_pb.gif")]

  /** `to_i` gives the byte count, `_strptime` the time, and `split` the
      method and path. */
  lemma ExampleConversions()
    ensures Converted(ExampleCaps) == ExampleConverted
  {
    var c := ExampleCaps;
    assert c[3] == ExStamp && c[4] == ExRequest && c[6] == ExBytes;
    ExampleBytes();
    ExampleStamp();
    ExampleWords();
    ConvertedRead(c, 2326, ExInstant, ["GET", "/apache_pb.gif", "HTTP/1.0"]);
    ExampleCaptured();
  }

  /** Of the example's converted fields only the identd is `-`. */
  lemma ExampleDashes()
    ensures Identd in ExampleConverted && ExampleConverted[Identd] == Str("-")
    ensures forall f | f in ExampleConverted && f != Identd :: ExampleConverted[f] != Str("-")
  {
  }

  /** With its identd set to nil, the example's converted fields are the
      documented ones. */
  lemma ExampleNilIdentd()
    ensures ExampleConverted[Identd := Nil] == ExampleRecord
  {
    var r := ExampleConverted[Identd := Nil];
    assert r.Keys == ExampleRecord.Keys;
    forall f | f in r ensures r[f] == ExampleRecord[f] {
      match f
      case IpAddress | Identd | User | Timestamp | Request | ResponseCode =>
      case Bytes | Referrer | UserAgent | Method | Path =>
    }
  }

  /** The `-` pass turns the example's identd into nil and leaves the other
      fields as they are. */
  lemma ExampleDerive()
    ensures Derive(ExampleCaps) == ExampleRecord
  {
    ExampleConversions();
    ExampleDashes();
    NormalisedOneDash(ExampleConverted, Identd);
    ExampleNilIdentd();
  }

  /** `parse` on the example line in the parser's comment, with or without
      the newline `each` leaves on it, returns the fields that comment
      describes: a nil identd, the time 13:55:36 on 10 October 2000, the
      byte count as a number, and the request's method and path. */
  lemma ExampleLine(rest: string)
    requires rest == "" || rest == "\n"
    ensures ParseOutcome(ExampleLogLine + rest) == Ok(ExampleRecord)
  {
    var line := ExampleLogLine + rest;
    var c := ExampleCaps;
    ExampleText();
    ExampleNoBackslash(rest);
    ParseRendered(c, rest);
    ExampleStamp();
    ParseTimestamp(line, c);
    ExampleDerive();
  }

  /** Each field name sits at its own position in `FieldNames`. */
  lemma FieldNamesPositions()
    ensures forall j | 0 <= j < |FieldNames| :: Position(FieldNames[j]) == j
    ensures forall f :: f in FieldNames <==> Position(f) < 9
    ensures forall f | Position(f) < 9 :: FieldNames[Position(f)] == f
  {
  }

  /** `field_names.inject({}){|h, n| h[n] = nil; h}`. */
  method NilFields() returns (fields: Record)
    ensures fields == AllNil()
  {
    FieldNamesPositions();
    fields := map[];
    var i := 0;
    while i < |FieldNames|
      invariant 0 <= i <= |FieldNames|
      invariant forall f :: f in fields <==> Position(f) < i
      invariant forall f | f in fields :: fields[f] == Nil
    {
      fields := fields[FieldNames[i] := Nil];
      i := i + 1;
    }
  }

  /** `field_names.each_with_index{|n, i| fields[n] = match_data[i+1]}`. */
  method AssignCaptures(nils: Record, caps: seq<string>) returns (fields: Record)
    requires nils == AllNil() && |caps| == 9
    ensures fields == Captured(caps)
  {
    FieldNamesPositions();
    fields := nils;
    var n := 0;
    while n < |FieldNames|
      invariant 0 <= n <= |FieldNames|
      invariant forall f :: f in fields <==> Position(f) < 9
      invariant forall f | Position(f) < 9 :: fields[f] == if Position(f) < n then Str(caps[Position(f)]) else Nil
    {
      var name := FieldNames[n];
      assert Position(name) == n;
      fields := fields[name := Str(caps[n])];
      n := n + 1;
    }
    assert forall f :: f in fields <==> f in Captured(caps);
  }

  /** The three conversions after the assignment: `bytes` through `to_i`,
      the timestamp through `_strptime` and `Time.mktime`, which raises for
      an hour of 24 with a minute or second other than 0, and the request
      split into `method` and `path`. */
  method Convert(captured: Record, caps: seq<string>) returns (r: Result<Record, ParseError>)
    requires |caps| == 9 && captured == Captured(caps)
    ensures r == if StampRejected(caps[3]) then Err(ArgumentError) else Ok(Converted(caps))
  {
    CapturedTexts(caps);
    ghost var counted := captured[Bytes := Int(ToI(caps[6]))];
    var fields := captured;
    fields := fields[Bytes := Int(ToI(fields[Bytes].text))];
    assert fields == counted && fields[Timestamp] == Str(caps[3]);
    var d := StrpTime(fields[Timestamp].text);
    if d.Some? {
      if MktimeRejects(d.value) {
        return Err(ArgumentError);
      }
      fields := fields[Timestamp := Time(d.value)];
    } else {
      Unchanged(fields, Timestamp);
    }
    assert fields == counted[Timestamp := TimeOrText(caps[3])];
    var words := SplitWs(fields[Request].text);
    fields := fields[Method := Token(words, 0)][Path := Token(words, 1)];
    r := Ok(fields);
  }

  /** `fields.each{|k, v| fields[k] = nil if v == '-'}`, visiting the keys
      in `order`, the order they were added in. */
  method Normalise(given: Record, order: seq<Field>) returns (fields: Record)
    requires forall k :: k in given <==> k in order
    ensures fields == Normalised(given)
  {
    fields := given;
    var m := 0;
    while m < |order|
      invariant 0 <= m <= |order|
      invariant forall k :: k in fields <==> k in given
      invariant forall k | k in given :: fields[k] == if k in order[..m] then Dash(given[k]) else given[k]
    {
      var k := order[m];
      assert order[..m + 1] == order[..m] + [k];
      if fields[k] == Str("-") {
        fields := fields[k := Nil];
      }
      m := m + 1;
    }
    assert order[..m] == order;
  }

  /** `parse(line)`, step by step as the parser takes it. */
  method ParseLine(line: string) returns (outcome: Result<Record, ParseError>)
    ensures outcome == ParseOutcome(line)
  {
    var fields := NilFields();
    var text := Prepass(line);
    var found := MatchLine(text);
    if found.Some? {
      var caps := found.value;
      MatchLineFits(text);
      fields := AssignCaptures(fields, caps);
      var converted := Convert(fields, caps);
      if converted.Err? {
        return converted;
      }
      fields := Normalise(converted.value, MatchedFields);
    }
    outcome := Ok(fields);
  }

  /** The records for one file's lines, one per line, in order, had no line
      raised. */
  function FileRecords(content: string): seq<Record>
  {
    var lines := LineSplit.Lines(content);
    seq(|lines|, j requires 0 <= j < |lines| => Parse(lines[j]))
  }

  /** The records `each` yields for the files the glob finds, file after
      file, when no line raises (`EachYield` is what it yields in every
      case). */
  function Records(contents: seq<string>): seq<Record>
    decreases |contents|
  {
    if contents == [] then []
    else Records(contents[..|contents| - 1]) + FileRecords(contents[|contents| - 1])
  }

  /** Which of the lines `parse` raises on. */
  function RaiseFlags(lines: seq<string>): (flags: seq<bool>)
    ensures |flags| == |lines|
  {
    seq(|lines|, j requires 0 <= j < |lines| => Raises(lines[j]))
  }

  /** The index of the first line on which `parse` raises, or `|lines|`. */
  function FirstRaise(lines: seq<string>): nat
  {
    FirstTrue(RaiseFlags(lines), 0)
  }

  /** What `each` yields before it stops: the records, and the error that
      ended it, if one did. */
  datatype Yield = Yield(records: seq<Record>, error: Option<ParseError>)

  /** `File.open(file).each_line { |line| yield parse(line) }`: the records
      of the lines before the first that raises, and its error. */
  function FileYield(content: string): Yield
  {
    var lines := LineSplit.Lines(content);
    var k := FirstRaise(lines);
    Yield(FileRecords(content)[..k], if k < |lines| then Some(ArgumentError) else None)
  }

  /** `each` over the files, file after file, stopping at the first error. */
  function EachYield(contents: seq<string>): Yield
    decreases |contents|
  {
    if contents == [] then Yield([], None)
    else
      var before := EachYield(contents[..|contents| - 1]);
      if before.error.Some? then before
      else
        var last := FileYield(contents[|contents| - 1]);
        Yield(before.records + last.records, last.error)
  }

  /** No line of the file raises. */
  predicate FileNoneRaise(content: string)
  {
    var lines := LineSplit.Lines(content);
    forall j | 0 <= j < |lines| :: !Raises(lines[j])
  }

  /** No line of any of the files raises. */
  predicate NoneRaise(contents: seq<string>)
  {
    forall i | 0 <= i < |contents| :: FileNoneRaise(contents[i])
  }

  /** One file yields a prefix of its records; it ends without an error
      exactly when no line raises, and then it yields them all; otherwise
      the line after the last record yielded is the one that raised. */
  lemma FileYieldPrefix(content: string)
    ensures var y := FileYield(content);
      var lines := LineSplit.Lines(content);
      && y.records <= FileRecords(content)
      && (y.error.None? <==> FileNoneRaise(content))
      && (y.error.None? ==> y.records == FileRecords(content))
      && (y.error.Some? ==> |y.records| < |lines| && Raises(lines[|y.records|]))
  {
    var lines := LineSplit.Lines(content);
    var flags := RaiseFlags(lines);
    var k := FirstTrue(flags, 0);
    assert |FileRecords(content)| == |lines|;
    assert forall j | 0 <= j < |lines| :: flags[j] == Raises(lines[j]);
    if k == |lines| {
      assert FileRecords(content)[..k] == FileRecords(content);
    }
  }

  /** A line before the first that raises adds its record; the first that
      raises ends the file with the records before it. */
  lemma FileYieldStep(content: string, j: nat)
    requires j < |LineSplit.Lines(content)| && j <= FirstRaise(LineSplit.Lines(content))
    ensures var lines := LineSplit.Lines(content);
      var rs := FileRecords(content);
      && |rs| == |lines|
      && (ParseOutcome(lines[j]).Err? ==> FileYield(content) == Yield(rs[..j], Some(ArgumentError)))
      && (ParseOutcome(lines[j]).Ok? ==> j + 1 <= FirstRaise(lines) && rs[..j + 1] == rs[..j] + [ParseOutcome(lines[j]).value])
  {
    var lines := LineSplit.Lines(content);
    var rs := FileRecords(content);
    assert RaiseFlags(lines)[j] == Raises(lines[j]);
    if ParseOutcome(lines[j]).Ok? {
      assert rs[j] == Parse(lines[j]);
      TakeNext(rs, j);
    }
  }

  /** With no line raising, the file yields every record. */
  lemma FileYieldAll(content: string)
    requires FirstRaise(LineSplit.Lines(content)) >= |LineSplit.Lines(content)|
    ensures |FileRecords(content)| == |LineSplit.Lines(content)|
    ensures FileYield(content) == Yield(FileRecords(content), None)
  {
    var rs := FileRecords(content);
    assert rs[..|rs|] == rs;
  }

  /** `each` yields a prefix of the records of every line; it ends without
      an error exactly when no line of any file raises, and then it yields
      all of them. */
  lemma {:induction false} EachYieldPrefix(contents: seq<string>)
    ensures EachYield(contents).records <= Records(contents)
    ensures EachYield(contents).error.None? <==> NoneRaise(contents)
    ensures EachYield(contents).error.None? ==> EachYield(contents).records == Records(contents)
    decreases |contents|
  {
    if contents != [] {
      var init := contents[..|contents| - 1];
      var c := contents[|contents| - 1];
      EachYieldPrefix(init);
      FileYieldPrefix(c);
      NoneRaiseSplit(contents);
      var before := EachYield(init);
      assert Records(contents) == Records(init) + FileRecords(c);
      if before.error.None? {
        var r := Records(init) + FileRecords(c);
        assert EachYield(contents) == Yield(before.records + FileYield(c).records, FileYield(c).error);
        assert before.records + FileYield(c).records <= r;
      } else {
        assert EachYield(contents) == before;
        assert Records(init) <= Records(contents);
      }
    }
  }

  lemma NoneRaiseSplit(contents: seq<string>)
    requires contents != []
    ensures NoneRaise(contents) <==>
      NoneRaise(contents[..|contents| - 1]) && FileNoneRaise(contents[|contents| - 1])
  {
    var init := contents[..|contents| - 1];
    var last := contents[|contents| - 1];
    if NoneRaise(init) && FileNoneRaise(last) {
      forall i | 0 <= i < |contents| ensures FileNoneRaise(contents[i]) {
        if i < |init| {
          assert contents[i] == init[i];
        }
      }
    }
    if NoneRaise(contents) {
      forall i | 0 <= i < |init| ensures FileNoneRaise(init[i]) {
        assert init[i] == contents[i];
      }
    }
  }

  /** Once `each` has stopped, the files after that are not read. */
  lemma {:induction false} EachStops(contents: seq<string>, k: nat)
    requires k <= |contents| && EachYield(contents[..k]).error.Some?
    ensures EachYield(contents) == EachYield(contents[..k])
    decreases |contents|
  {
    if k < |contents| {
      var init := contents[..|contents| - 1];
      assert init[..k] == contents[..k];
      EachStops(init, k);
    } else {
      assert contents[..k] == contents;
    }
  }

  /** `File.open(file).each_line { |line| yield parse(line) }`: the records
      for one file's lines, in order, until a line raises. */
  method ParseFile(content: string) returns (records: seq<Record>, error: Option<ParseError>)
    ensures Yield(records, error) == FileYield(content)
  {
    var lines := LineSplit.Lines(content);
    ghost var expected := FileRecords(content);
    records := [];
    var j := 0;
    while j < |lines|
      invariant 0 <= j <= |lines|
      invariant records == expected[..j]
      invariant j <= FirstRaise(lines)
    {
      var r := ParseLine(lines[j]);
      FileYieldStep(content, j);
      if r.Err? {
        return records, Some(r.error);
      }
      records := records + [r.value];
      j := j + 1;
    }
    FileYieldAll(content);
    error := None;
  }

  /** `each`, given the contents of the files the glob found, in its order:
      every line of every file, parsed, until a line raises. */
  method Each(contents: seq<string>) returns (records: seq<Record>, error: Option<ParseError>)
    ensures Yield(records, error) == EachYield(contents)
  {
    records := [];
    var i := 0;
    while i < |contents|
      invariant 0 <= i <= |contents|
      invariant EachYield(contents[..i]) == Yield(records, None)
    {
      var more, failure := ParseFile(contents[i]);
      assert contents[..i + 1][..i] == contents[..i];
      records := records + more;
      if failure.Some? {
        EachStops(contents, i + 1);
        return records, failure;
      }
      i := i + 1;
    }
    assert contents[..i] == contents;
    error := None;
  }

  /** When no line raises, `each` yields one record per line: as many as
      the newlines in each file, and one more for a file whose last line
      has none. */
  lemma {:induction false} RecordsCount(contents: seq<string>)
    ensures |Records(contents)| == Count(contents)
    decreases |contents|
  {
    if contents != [] {
      var c := contents[|contents| - 1];
      RecordsCount(contents[..|contents| - 1]);
      LineSplit.LinesCount(c);
    }
  }

  /** The number of lines in the files: the newlines, plus one per file whose
      last line is unterminated. */
  function Count(contents: seq<string>): nat
    decreases |contents|
  {
    if contents == [] then 0
    else
      var c := contents[|contents| - 1];
      Count(contents[..|contents| - 1]) + LineSplit.LineCount(c) + if c != [] && c[|c| - 1] != '\n' then 1 else 0
  }
}
