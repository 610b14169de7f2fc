/**
 * The quote-escaping rewrite processor: it reads a source file in chunks,
 * folds an ordered list of (pattern, replacement) filters over each chunk and
 * writes the chunks to a target file in read order; in same-file mode it then
 * swaps the target into the source's place. The default filter doubles every
 * double quote, the escaping rule of section 2 (rule 7) of RFC 4180.
 */
module EscapeCsv {
  import opened Wrappers
  import opened Rewrite
  import opened Files
  import opened Sequences

  /** One `{:replace => pattern, :result => replacement}` entry, with the
      pattern taken literally. */
  datatype Filter = Filter(pattern: string, replacement: string)

  /** The default `{:replace => '\"', :result => '""'}`: the regular expression
      `\"` matches one double quote, so literally the pattern is `"`. */
  const DefaultFilter := Filter("\"", "\"\"")

  const DefaultBuffer := 8192

  const SameFileMessage := "Source and target file cannot currently point to the same file"

  /** The configuration hash; `None` is an absent or nil entry. Paths are
      taken as already resolved. */
  datatype Config = Config(
    file: Option<string>,
    sourceFile: Option<string>,
    targetFile: Option<string>,
    filters: Option<seq<Filter>>,
    buffer: Option<int>)

  /** `NilPath` is the TypeError that `Pathname.new(nil)` raises for a missing
      source or target path; `ControlError` is the processor's own error. */
  datatype ConfigError = NilPath | ControlError(message: string)

  /** A constructed processor. */
  datatype Processor = Processor(
    sourceFile: string,
    targetFile: string,
    useTempFile: bool,
    filters: seq<Filter>,
    buffer: int)

  /** The constructor: the `:file` shortcut, the defaults and the checks. */
  function Configure(c: Config): (r: Result<Processor, ConfigError>)
    ensures r.Ok? <==> c.file.Some? || (c.sourceFile.Some? && c.targetFile.Some? && c.sourceFile != c.targetFile)
    ensures r.Ok? ==> r.value.sourceFile != r.value.targetFile
    ensures r.Ok? && c.file.Some? ==>
      r.value.useTempFile && r.value.sourceFile == c.file.value && r.value.targetFile == c.file.value + ".tmp"
    ensures r.Ok? && c.file.None? ==>
      !r.value.useTempFile && r.value.sourceFile == c.sourceFile.value && r.value.targetFile == c.targetFile.value
    ensures r.Ok? ==> r.value.filters == (if c.filters.Some? then c.filters.value else [DefaultFilter])
    ensures r.Ok? ==> r.value.buffer == (if c.buffer.Some? then c.buffer.value else DefaultBuffer)
    ensures c.file.None? && (c.sourceFile.None? || c.targetFile.None?) ==> r == Err(NilPath)
    ensures c.file.None? && c.sourceFile.Some? && c.sourceFile == c.targetFile ==> r == Err(ControlError(SameFileMessage))
  {
    var useTempFile := c.file.Some?;
    var source := if c.file.Some? then c.file else c.sourceFile;
    var target := if c.file.Some? then Some(c.file.value + ".tmp") else c.targetFile;
    var filters := if c.filters.Some? then c.filters.value else [DefaultFilter];
    var buffer := if c.buffer.Some? then c.buffer.value else DefaultBuffer;
    if source.None? || target.None? then Err(NilPath)
    else if source.value == target.value then Err(ControlError(SameFileMessage))
    else Ok(Processor(source.value, target.value, useTempFile, filters, buffer))
  }

  /** One filter applied to a chunk. */
  function Apply(text: string, f: Filter): string
  {
    ReplaceAll(text, f.pattern, f.replacement)
  }

  /** The filters folded over a chunk, first to last. */
  function ApplyFilters(text: string, filters: seq<Filter>): string
    decreases |filters|
  {
    if filters == [] then text else ApplyFilters(Apply(text, filters[0]), filters[1..])
  }

  /** The default rule applied to a whole text at once. */
  function Escape(s: string): string
  {
    ReplaceAll(s, "\"", "\"\"")
  }

  /** What the writer receives: each chunk after the fold, in read order. */
  function Rewritten(chunks: seq<string>, filters: seq<Filter>): string
  {
    if chunks == [] then []
    else Rewritten(chunks[..|chunks| - 1], filters) + ApplyFilters(chunks[|chunks| - 1], filters)
  }

  /** `readings` is what successive `readpartial(buffer)` calls can return for
      `content`: non-empty pieces of at most `buffer` characters, in order. */
  predicate ReadingsOf(readings: seq<string>, content: string, buffer: int)
  {
    Flatten(readings) == content && forall k :: 0 <= k < |readings| ==> 0 < |readings[k]| <= buffer
  }

  /** Splitting the filter list splits the fold: filter i's output is filter
      i+1's input. */
  lemma {:induction false} ApplyFiltersAppend(text: string, first: seq<Filter>, second: seq<Filter>)
    ensures ApplyFilters(text, first + second) == ApplyFilters(ApplyFilters(text, first), second)
    decreases |first|
  {
    if first != [] {
      assert (first + second)[0] == first[0];
      assert (first + second)[1..] == first[1..] + second;
      ApplyFiltersAppend(Apply(text, first[0]), first[1..], second);
    } else {
      assert first + second == second;
    }
  }

  /** Reading more chunks appends their rewritten text. */
  lemma {:induction false} RewrittenAppend(a: seq<string>, b: seq<string>, filters: seq<Filter>)
    ensures Rewritten(a + b, filters) == Rewritten(a, filters) + Rewritten(b, filters)
    decreases |b|
  {
    if b == [] {
      assert a + b == a;
    } else {
      var n := |b| - 1;
      assert (a + b)[..|a| + n] == a + b[..n];
      assert (a + b)[|a| + n] == b[n];
      RewrittenAppend(a, b[..n], filters);
    }
  }

  /** Every filter pattern is a single character. */
  predicate SingleCharFilters(filters: seq<Filter>)
  {
    forall k :: 0 <= k < |filters| ==> |filters[k].pattern| == 1
  }

  /** Single-character filters commute with concatenation. */
  lemma {:induction false} ApplyFiltersConcat(a: string, b: string, filters: seq<Filter>)
    requires SingleCharFilters(filters)
    ensures ApplyFilters(a + b, filters) == ApplyFilters(a, filters) + ApplyFilters(b, filters)
    decreases |filters|
  {
    if filters != [] {
      var f := filters[0];
      assert f.pattern == [f.pattern[0]];
      ReplaceCharConcat(a, b, f.pattern[0], f.replacement);
      ApplyFiltersConcat(Apply(a, f), Apply(b, f), filters[1..]);
    }
  }

  /** Single-character filters leave empty text empty. */
  lemma {:induction false} ApplyFiltersEmpty(filters: seq<Filter>)
    requires SingleCharFilters(filters)
    ensures ApplyFilters([], filters) == []
    decreases |filters|
  {
    if filters != [] {
      ApplyFiltersEmpty(filters[1..]);
    }
  }

  /** With single-character filters, how the source is cut into chunks does
      not matter: the chunked output is the whole input filtered at once. */
  lemma {:induction false} ChunkingInvisible(chunks: seq<string>, filters: seq<Filter>)
    requires SingleCharFilters(filters)
    ensures Rewritten(chunks, filters) == ApplyFilters(Flatten(chunks), filters)
    decreases |chunks|
  {
    if chunks == [] {
      ApplyFiltersEmpty(filters);
    } else {
      var n := |chunks| - 1;
      var init := Flatten(chunks[..n]);
      ChunkingInvisible(chunks[..n], filters);
      ApplyFiltersConcat(init, chunks[n], filters);
      calc {
        Rewritten(chunks, filters);
        Rewritten(chunks[..n], filters) + ApplyFilters(chunks[n], filters);
        ApplyFilters(init, filters) + ApplyFilters(chunks[n], filters);
        ApplyFilters(init + chunks[n], filters);
        { assert Flatten(chunks) == init + chunks[n]; }
        ApplyFilters(Flatten(chunks), filters);
      }
    }
  }

  /** The default filter list is the default rule. */
  lemma DefaultFiltersEscape(s: string)
    ensures ApplyFilters(s, [DefaultFilter]) == Escape(s)
  {
    assert [DefaultFilter][1..] == [];
  }

  /** Under the default rule, chunked processing equals whole-input processing. */
  lemma DefaultChunkingInvisible(chunks: seq<string>)
    ensures Rewritten(chunks, [DefaultFilter]) == Escape(Flatten(chunks))
  {
    ChunkingInvisible(chunks, [DefaultFilter]);
    DefaultFiltersEscape(Flatten(chunks));
  }

  /** A match that straddles a chunk boundary is missed: a two-character
      pattern cut in half by the reader is not replaced. */
  lemma ChunkBoundaryMiss()
    ensures Rewritten(["a", "b"], [Filter("ab", "X")]) == "ab"
    ensures ApplyFilters(Flatten(["a", "b"]), [Filter("ab", "X")]) == "X"
  {
    var f := Filter("ab", "X");
    assert ["a", "b"][..1] == ["a"];
    assert ["a"][..0] == [];
    assert !("ab" <= "a") && !("ab" <= "b");
    assert ApplyFilters("a", [f]) == "a" by {
      assert ReplaceAll("a"[1..], "ab", "X") == [];
    }
    assert ApplyFilters("b", [f]) == "b" by {
      assert ReplaceAll("b"[1..], "ab", "X") == [];
    }
    assert Flatten(["a", "b"]) == "ab";
    assert ReplaceAll("ab"[2..], "ab", "X") == [];
  }

  /** The escaped text is one character longer per double quote. */
  lemma EscapeLength(s: string)
    ensures |Escape(s)| == |s| + multiset(s)['"']
  {
    ReplaceCharLength(s, '"', "\"\"");
  }

  /** Every double quote is doubled. */
  lemma {:induction false} EscapeQuoteCount(s: string)
    ensures multiset(Escape(s))['"'] == 2 * multiset(s)['"']
    decreases |s|
  {
    if s != [] {
      assert s == [s[0]] + s[1..];
      assert multiset(s) == multiset{s[0]} + multiset(s[1..]);
      assert ("\"" <= s) == (s[0] == '"');
      EscapeQuoteCount(s[1..]);
      var tail := Escape(s[1..]);
      if s[0] == '"' {
        assert Escape(s) == "\"\"" + tail;
        assert multiset("\"\"" + tail) == multiset("\"\"") + multiset(tail);
      } else {
        assert Escape(s) == [s[0]] + tail;
        assert multiset([s[0]] + tail) == multiset{s[0]} + multiset(tail);
      }
    }
  }

  /** Text without a double quote passes through unchanged. */
  lemma EscapeNoQuote(s: string)
    requires '"' !in s
    ensures Escape(s) == s
  {
    forall i: nat ensures !OccursAt(s, "\"", i) {
      if i + 1 <= |s| { assert s[i..i + 1] == [s[i]]; }
    }
    ReplaceAllAbsent(s, "\"", "\"\"");
  }

  /** The default rule is idempotent exactly on text without double quotes:
      a second run doubles the doubled quotes again. */
  lemma EscapeIdempotentIff(s: string)
    ensures Escape(Escape(s)) == Escape(s) <==> '"' !in s
  {
    if '"' in s {
      EscapeLength(Escape(s));
      EscapeQuoteCount(s);
      assert multiset(s)['"'] > 0;
    } else {
      EscapeNoQuote(s);
    }
  }

  /** Collapses each doubled double quote, reading RFC 4180 escaping back. */
  function Unescape(s: string): string
    decreases |s|
  {
    if |s| >= 2 && s[0] == '"' && s[1] == '"' then "\"" + Unescape(s[2..])
    else if s == [] then []
    else [s[0]] + Unescape(s[1..])
  }

  /** Escaping loses nothing: unescaping gives the original text back. */
  lemma {:induction false} EscapeRoundTrip(s: string)
    ensures Unescape(Escape(s)) == s
    decreases |s|
  {
    if s != [] {
      assert ("\"" <= s) == (s[0] == '"');
      EscapeRoundTrip(s[1..]);
      var tail := Escape(s[1..]);
      if s[0] == '"' {
        assert Escape(s) == "\"\"" + tail;
        assert ("\"\"" + tail)[2..] == tail;
      } else {
        assert Escape(s) == [s[0]] + tail;
        assert ([s[0]] + tail)[1..] == tail;
      }
    }
  }

  /** How `process` ends: normally; with the `Errno::ENOENT` of a missing
      source; with the ArgumentError `readpartial` raises for a negative
      length; or not at all, when `readpartial(0)` keeps returning an empty
      chunk before the end of the source. */
  datatype Outcome = Done | NoSuchFile(path: string) | NegativeLength | Hangs

  /** The `@filters.each` loop: each filter's result becomes the next one's
      input. */
  method FoldFilters(text: string, filters: seq<Filter>) returns (reading: string)
    ensures reading == ApplyFilters(text, filters)
  {
    reading := text;
    for j := 0 to |filters|
      invariant reading == ApplyFilters(text, filters[..j])
    {
      ApplyFiltersAppend(text, filters[..j], [filters[j]]);
      assert filters[..j + 1] == filters[..j] + [filters[j]];
      reading := ReplaceAll(reading, filters[j].pattern, filters[j].replacement);
    }
    assert filters[..|filters|] == filters;
  }

  /** The file system after a successful `process`. */
  function AfterProcess(p: Processor, files: map<string, string>, readings: seq<string>): map<string, string>
  {
    var output := Rewritten(readings, p.filters);
    if p.useTempFile then (files - {p.targetFile})[p.sourceFile := output]
    else files[p.targetFile := output]
  }

  /** `process`: open the source (a missing one raises before anything is
      written), open and empty the target, then write each chunk after the
      filter fold; in temp-file mode remove the source and move the target
      onto it. `readings` is how the reader cuts the source into chunks. A
      buffer of 0 or less never reads a non-empty source: a negative one
      raises at the first read, and 0 reads empty chunks forever, which the
      outcome `Hangs` stands for, with the files as the loop finds them. */
  method Process(p: Processor, fs: FileStore, readings: seq<string>) returns (r: Outcome)
    requires p.sourceFile != p.targetFile
    requires p.sourceFile in fs.files && (p.buffer > 0 || fs.files[p.sourceFile] == []) ==>
      ReadingsOf(readings, fs.files[p.sourceFile], p.buffer)
    modifies fs
    ensures p.sourceFile !in old(fs.files) ==> r == NoSuchFile(p.sourceFile) && fs.files == old(fs.files)
    ensures p.sourceFile in old(fs.files) && (p.buffer > 0 || old(fs.files)[p.sourceFile] == []) ==>
      r == Done && fs.files == AfterProcess(p, old(fs.files), readings)
    ensures p.sourceFile in old(fs.files) && p.buffer <= 0 && old(fs.files)[p.sourceFile] != [] ==>
      r == (if p.buffer < 0 then NegativeLength else Hangs) && fs.files == old(fs.files)[p.targetFile := ""]
  {
    if p.sourceFile !in fs.files {
      return NoSuchFile(p.sourceFile);
    }
    var content := fs.files[p.sourceFile];
    fs.OpenForWrite(p.targetFile);
    if p.buffer <= 0 && content != [] {
      return if p.buffer < 0 then NegativeLength else Hangs;
    }
    var i := 0;
    while i < |readings|
      invariant 0 <= i <= |readings|
      invariant fs.files == old(fs.files)[p.targetFile := Rewritten(readings[..i], p.filters)]
    {
      var reading := FoldFilters(readings[i], p.filters);
      assert readings[..i + 1][..i] == readings[..i];
      fs.Append(p.targetFile, reading);
      i := i + 1;
    }
    assert readings[..|readings|] == readings;
    if p.useTempFile {
      fs.Remove(p.sourceFile);
      fs.Move(p.targetFile, p.sourceFile);
    }
    r := Done;
  }

  /** No finite run of reads of at most `buffer` characters, with `buffer`
      0 or less, gets through a non-empty source: the `eof?` loop cannot
      end. */
  lemma NoReadingsWithoutBuffer(readings: seq<string>, content: string, buffer: int)
    requires content != [] && buffer <= 0
    ensures !ReadingsOf(readings, content, buffer)
  {
    if readings != [] {
      assert !(0 < |readings[0]| <= buffer);
    }
  }

  /** The message of the `ControlError` for a buffer of 0 or less. */
  const BufferMessage := "Buffer must be positive"

  /** The constructor with the check a buffer evidently needs: one of 0 or
      less is refused with a `ControlError`, like the other bad settings. */
  function CheckedConfigure(c: Config): (r: Result<Processor, ConfigError>)
    ensures r.Ok? ==> r.value.buffer > 0
    ensures r.Ok? <==> Configure(c).Ok? && Configure(c).value.buffer > 0
    ensures r.Ok? ==> r == Configure(c)
    ensures Configure(c).Err? ==> r == Configure(c)
  {
    match Configure(c)
    case Err(e) => Err(e)
    case Ok(p) => if p.buffer <= 0 then Err(ControlError(BufferMessage)) else Ok(p)
  }

  /** What `readpartial(buffer)` returns from a plain file: full chunks of
      `buffer` characters, the last one shorter. */
  function Chunks(content: string, buffer: int): (readings: seq<string>)
    requires buffer > 0
    decreases |content|
  {
    if content == [] then []
    else if |content| <= buffer then [content]
    else [content[..buffer]] + Chunks(content[buffer..], buffer)
  }

  /** With a positive buffer every source has a run of reads that gets
      through it, so the `eof?` loop ends. */
  lemma {:induction false} ChunksRead(content: string, buffer: int)
    requires buffer > 0
    ensures ReadingsOf(Chunks(content, buffer), content, buffer)
    decreases |content|
  {
    if content != [] && |content| > buffer {
      var rest := content[buffer..];
      ChunksRead(rest, buffer);
      FlattenCons(content[..buffer], Chunks(rest, buffer));
      assert content[..buffer] + rest == content;
    } else if content != [] {
      FlattenCons(content, []);
    }
  }

  /** Every processor the checked constructor accepts gets through any
      source. */
  lemma CheckedProcessorReads(c: Config, content: string)
    requires CheckedConfigure(c).Ok?
    ensures ReadingsOf(Chunks(content, CheckedConfigure(c).value.buffer), content, CheckedConfigure(c).value.buffer)
  {
    ChunksRead(content, CheckedConfigure(c).value.buffer);
  }

  /** Without `:file`, the target holds the rewritten chunks and every other
      path, the source included, is as it was. */
  lemma SeparateTargetMode(p: Processor, files: map<string, string>, readings: seq<string>)
    requires !p.useTempFile && p.sourceFile != p.targetFile && p.sourceFile in files
    ensures var after := AfterProcess(p, files, readings);
      && after.Keys == files.Keys + {p.targetFile}
      && after[p.targetFile] == Rewritten(readings, p.filters)
      && forall path :: path in files && path != p.targetFile ==> after[path] == files[path]
  {
  }

  /** With `:file`, `process` leaves the filtered content at the file's own
      path, no `.tmp` file behind and every other path as it was; under the
      default filter that content is the whole file escaped at once. */
  lemma SameFileMode(c: Config, files: map<string, string>, readings: seq<string>)
    requires c.file.Some? && c.file.value in files
    requires ReadingsOf(readings, files[c.file.value], Configure(c).value.buffer)
    ensures var p := Configure(c).value;
      var after := AfterProcess(p, files, readings);
      var path := c.file.value;
      && after.Keys == files.Keys - {path + ".tmp"}
      && after[path] == Rewritten(readings, p.filters)
      && (forall other :: other in files && other != path && other != path + ".tmp" ==> after[other] == files[other])
      && (c.filters.None? ==> after[path] == Escape(files[path]))
  {
    var p := Configure(c).value;
    if c.filters.None? {
      DefaultChunkingInvisible(readings);
    }
  }
}
