/**
 * The chunked bulk loader: configuration defaults and checks, the options
 * passed to the driver, the decision to split the file into line-bounded
 * pieces, and the loop that loads each piece in its own transaction,
 * truncating the table at most once.
 */
module BulkImport {
  import opened Wrappers
  import opened Sequences
  import opened LineSplit

  const TargetMissing := "Target must be specified"
  const TableMissing := "Table must be specified"

  /** The configuration hash; `None` is an absent or nil entry. Paths are
      taken as already resolved. */
  datatype Config = Config(
    file: Option<string>,
    target: Option<string>,
    table: Option<string>,
    truncate: Option<bool>,
    columns: Option<seq<string>>,
    fieldSeparator: Option<string>,
    lineSeparator: Option<string>,
    nullString: Option<string>,
    fieldEnclosure: Option<string>,
    disableKeys: Option<bool>,
    replace: Option<bool>,
    commitEvery: Option<int>)

  /** `NilPath` is the TypeError that `Pathname.new(nil)` raises when `:file`
      is missing; `ControlError` is the processor's own error. */
  datatype ConfigError = NilPath | ControlError(message: string)

  /** The processor's attributes once constructed. */
  datatype Settings = Settings(
    file: string,
    target: string,
    table: string,
    truncate: bool,
    columns: Option<seq<string>>,
    fieldSeparator: string,
    lineSeparator: string,
    nullString: string,
    fieldEnclosure: Option<string>,
    disableKeys: bool,
    replace: bool,
    commitEvery: int)

  /** `x || default` for a string setting. */
  function OrDefault(x: Option<string>, default: string): string
  {
    if x.Some? then x.value else default
  }

  /** `x || false` for a flag. */
  function Truthy(x: Option<bool>): bool
  {
    x == Some(true)
  }

  /** The constructor: the defaults and the two required settings. */
  function Configure(c: Config): (r: Result<Settings, ConfigError>)
    ensures r.Ok? <==> c.file.Some? && c.target.Some? && c.table.Some?
    ensures c.file.None? ==> r == Err(NilPath)
    ensures c.file.Some? && c.target.None? ==> r == Err(ControlError(TargetMissing))
    ensures c.file.Some? && c.target.Some? && c.table.None? ==> r == Err(ControlError(TableMissing))
    ensures r.Ok? ==>
      && r.value.file == c.file.value && r.value.target == c.target.value && r.value.table == c.table.value
      && r.value.columns == c.columns && r.value.fieldEnclosure == c.fieldEnclosure
      && r.value.fieldSeparator == (if c.fieldSeparator.Some? then c.fieldSeparator.value else ",")
      && r.value.lineSeparator == (if c.lineSeparator.Some? then c.lineSeparator.value else "\n")
      && r.value.nullString == (if c.nullString.Some? then c.nullString.value else "")
      && r.value.truncate == (c.truncate == Some(true))
      && r.value.disableKeys == (c.disableKeys == Some(true))
      && r.value.replace == (c.replace == Some(true))
      && r.value.commitEvery == (if c.commitEvery.Some? then c.commitEvery.value else 0)
  {
    if c.file.None? then Err(NilPath)
    else if c.target.None? then Err(ControlError(TargetMissing))
    else if c.table.None? then Err(ControlError(TableMissing))
    else Ok(Settings(
      c.file.value, c.target.value, c.table.value, Truthy(c.truncate), c.columns,
      OrDefault(c.fieldSeparator, ","), OrDefault(c.lineSeparator, "\n"), OrDefault(c.nullString, ""),
      c.fieldEnclosure, Truthy(c.disableKeys), Truthy(c.replace),
      if c.commitEvery.Some? then c.commitEvery.value else 0))
  }

  /** The keys of the options hash and of its `:fields` sub-hash. */
  datatype OptionKey = Columns | DisableKeys | Replace | Fields
  datatype FieldKey = NullString | DelimitedBy | EnclosedBy | TerminatedBy

  datatype OptionValue =
    | ColumnList(columns: Option<seq<string>>)
    | Flag(on: bool)
    | FieldSettings(fields: map<FieldKey, string>)

  type LoadOptions = map<OptionKey, OptionValue>

  /** The options hash handed to `bulk_load`. The separators and the null
      string always have a value once constructed, so `:fields` is always
      there; only the enclosure is optional. */
  function BuildOptions(
    columns: Option<seq<string>>, disableKeys: bool, replace: bool,
    fieldSeparator: string, fieldEnclosure: Option<string>, lineSeparator: string, nullString: string
  ): (options: LoadOptions)
    ensures options.Keys == {Columns, Fields}
      + (if disableKeys then {DisableKeys} else {})
      + (if replace then {Replace} else {})
    ensures options[Columns] == ColumnList(columns)
    ensures forall k :: k in options && (k == DisableKeys || k == Replace) ==> options[k] == Flag(true)
    ensures options[Fields].FieldSettings?
    ensures var fields := options[Fields].fields;
      && fields.Keys == {NullString, DelimitedBy, TerminatedBy} + (if fieldEnclosure.Some? then {EnclosedBy} else {})
      && fields[NullString] == nullString
      && fields[DelimitedBy] == fieldSeparator
      && fields[TerminatedBy] == lineSeparator
      && (fieldEnclosure.Some? ==> fields[EnclosedBy] == fieldEnclosure.value)
  {
    var options := map[Columns := ColumnList(columns)];
    var options := if disableKeys then options[DisableKeys := Flag(true)] else options;
    var options := if replace then options[Replace := Flag(true)] else options;
    var fields := map[NullString := nullString, DelimitedBy := fieldSeparator];
    var fields := if fieldEnclosure.Some? then fields[EnclosedBy := fieldEnclosure.value] else fields;
    var fields := fields[TerminatedBy := lineSeparator];
    options[Fields := FieldSettings(fields)]
  }

  /** A file handed to `bulk_load`: the source itself, or the `index`-th piece
      written by `split`, identified by its content. */
  datatype LoadFile = Whole(path: string) | Piece(index: nat, text: string)

  /** `load_file_list`: the whole file unless a positive `commitEvery` is
      below the `wc -l` count, in which case the pieces of `split -l`, in
      split order; no pieces at all falls back to the whole file. */
  function LoadFileList(path: string, content: string, commitEvery: int): seq<LoadFile>
  {
    if commitEvery <= 0 || LineCount(content) <= commitEvery then [Whole(path)]
    else
      var pieces := Pieces(content, commitEvery);
      if pieces == [] then [Whole(path)]
      else seq(|pieces|, i requires 0 <= i < |pieces| => Piece(i, pieces[i]))
  }

  /** The list is exactly the whole file when, and only when, `commitEvery` is
      not positive or the newline count does not exceed it. */
  lemma LoadFileListWhole(path: string, content: string, commitEvery: int)
    ensures LoadFileList(path, content, commitEvery) == [Whole(path)]
        <==> commitEvery <= 0 || LineCount(content) <= commitEvery
  {
    if commitEvery > 0 && LineCount(content) > commitEvery {
      LoadFileListSplit(path, content, commitEvery);
    }
  }

  /** Otherwise the list holds at least two pieces, numbered in order; each has
      `commitEvery` lines except the last, which has between one and
      `commitEvery`; joined in order they give back the content. */
  lemma LoadFileListSplit(path: string, content: string, commitEvery: int)
    requires commitEvery > 0 && LineCount(content) > commitEvery
    ensures var list := LoadFileList(path, content, commitEvery);
      var groups := Groups(Lines(content), commitEvery);
      && |list| == |groups| >= 2
      && (forall i :: 0 <= i < |list| ==> list[i] == Piece(i, Flatten(groups[i])))
      && (forall i :: 0 <= i < |groups| ==>
            0 < |groups[i]| <= commitEvery && (i < |groups| - 1 ==> |groups[i]| == commitEvery))
      && Flatten(Pieces(content, commitEvery)) == content
  {
    var lines := Lines(content);
    LinesCount(content);
    GroupsSizes(lines, commitEvery);
    MoreThanOneGroup(|Groups(lines, commitEvery)|, commitEvery);
    PiecesJoin(content, commitEvery);
  }

  /** Groups of at most `n` holding more than `n` lines are at least two. */
  lemma MoreThanOneGroup(g: nat, n: nat)
    requires n > 0 && g * n > n
    ensures g >= 2
  {
  }

  /** A call on the sink, as recorded in its trace. */
  datatype SinkCall =
    | Begin
    | Truncate(table: string)
    | BulkLoad(file: LoadFile, table: string, options: LoadOptions)
    | Commit
    | Rollback

  /** The connection, reduced to the calls made on it. Which `truncate` and
      `bulk_load` calls raise is fixed by the set `rejects`. */
  class Sink {
    var trace: seq<SinkCall>
    const rejects: set<SinkCall>

    constructor (rejects: set<SinkCall>)
      ensures trace == [] && this.rejects == rejects
    {
      trace := [];
      this.rejects := rejects;
    }

    method Begin()
      modifies this`trace
      ensures trace == old(trace) + [SinkCall.Begin]
    {
      trace := trace + [SinkCall.Begin];
    }

    method Truncate(table: string) returns (ok: bool)
      modifies this`trace
      ensures trace == old(trace) + [SinkCall.Truncate(table)]
      ensures ok == (SinkCall.Truncate(table) !in rejects)
    {
      trace := trace + [SinkCall.Truncate(table)];
      ok := SinkCall.Truncate(table) !in rejects;
    }

    method BulkLoad(file: LoadFile, table: string, options: LoadOptions) returns (ok: bool)
      modifies this`trace
      ensures trace == old(trace) + [SinkCall.BulkLoad(file, table, options)]
      ensures ok == (SinkCall.BulkLoad(file, table, options) !in rejects)
    {
      trace := trace + [SinkCall.BulkLoad(file, table, options)];
      ok := SinkCall.BulkLoad(file, table, options) !in rejects;
    }

    method Commit()
      modifies this`trace
      ensures trace == old(trace) + [SinkCall.Commit]
    {
      trace := trace + [SinkCall.Commit];
    }

    method Rollback()
      modifies this`trace
      ensures trace == old(trace) + [SinkCall.Rollback]
    {
      trace := trace + [SinkCall.Rollback];
    }
  }

  /** One `conn.transaction do ... end` block: begin, truncate if asked, load,
      then commit, or roll back as soon as a call raises. */
  datatype Tx = Tx(calls: seq<SinkCall>, committed: bool)

  function Transaction(file: LoadFile, table: string, options: LoadOptions, truncate: bool, rejects: set<SinkCall>): Tx
  {
    if truncate && Truncate(table) in rejects then Tx([Begin, Truncate(table), Rollback], false)
    else
      var opening := [Begin] + (if truncate then [Truncate(table)] else []);
      var load := BulkLoad(file, table, options);
      if load in rejects then Tx(opening + [load, Rollback], false)
      else Tx(opening + [load, Commit], true)
  }

  /** The calls the load loop makes for a list of files, how many chunks it
      committed and whether it stopped on an error. Only the first chunk's
      transaction may truncate; the first error ends the loop. */
  datatype Run = Run(calls: seq<SinkCall>, completed: nat, failed: bool)

  function RunLoads(list: seq<LoadFile>, table: string, options: LoadOptions, truncate: bool, rejects: set<SinkCall>): Run
  {
    if list == [] then Run([], 0, false)
    else
      var n := |list| - 1;
      var before := RunLoads(list[..n], table, options, truncate, rejects);
      if before.failed then before
      else
        var tx := Transaction(list[n], table, options, truncate && n == 0, rejects);
        Run(before.calls + tx.calls, if tx.committed then n + 1 else n, !tx.committed)
  }

  /** One more chunk after a prefix that did not fail: its transaction is
      appended, with truncation only if it is the very first chunk. */
  lemma RunLoadsStep(list: seq<LoadFile>, i: nat, table: string, options: LoadOptions, truncate: bool, rejects: set<SinkCall>)
    requires i < |list|
    requires !RunLoads(list[..i], table, options, truncate, rejects).failed
    ensures var before := RunLoads(list[..i], table, options, truncate, rejects);
      var tx := Transaction(list[i], table, options, truncate && i == 0, rejects);
      RunLoads(list[..i + 1], table, options, truncate, rejects)
        == Run(before.calls + tx.calls, if tx.committed then i + 1 else i, !tx.committed)
  {
    assert list[..i + 1][..i] == list[..i];
  }

  /** Once a prefix of the list has failed, the longer list runs the same. */
  lemma {:induction false} RunLoadsStops(list: seq<LoadFile>, k: nat, table: string, options: LoadOptions, truncate: bool, rejects: set<SinkCall>)
    requires k <= |list|
    requires RunLoads(list[..k], table, options, truncate, rejects).failed
    ensures RunLoads(list, table, options, truncate, rejects) == RunLoads(list[..k], table, options, truncate, rejects)
    decreases |list| - k
  {
    if k < |list| {
      var n := |list| - 1;
      assert list[..n][..k] == list[..k];
      RunLoadsStops(list[..n], k, table, options, truncate, rejects);
    } else {
      assert list[..k] == list;
    }
  }

  /** How often a call occurs in a trace. */
  function Occurrences(calls: seq<SinkCall>, c: SinkCall): nat
  {
    multiset(calls)[c]
  }

  /** The files loaded, in the order of their `bulk_load` calls. */
  function Loaded(calls: seq<SinkCall>): seq<LoadFile>
  {
    if calls == [] then []
    else
      var n := |calls| - 1;
      Loaded(calls[..n]) + (if calls[n].BulkLoad? then [calls[n].file] else [])
  }

  lemma {:induction false} LoadedAppend(a: seq<SinkCall>, b: seq<SinkCall>)
    ensures Loaded(a + b) == Loaded(a) + Loaded(b)
    decreases |b|
  {
    if b == [] {
      assert a + b == a;
    } else {
      var n := |b| - 1;
      assert (a + b)[..|a| + n] == a + b[..n];
      assert (a + b)[|a| + n] == b[n];
      LoadedAppend(a, b[..n]);
    }
  }

  /** The shape of one transaction: it opens with `Begin`, truncates (as its
      second call) only when asked, loads only the given file, and closes with
      `Commit` when it committed and `Rollback` otherwise. */
  lemma TxShape(file: LoadFile, table: string, options: LoadOptions, truncate: bool, rejects: set<SinkCall>)
    ensures var tx := Transaction(file, table, options, truncate, rejects);
      var c := tx.calls;
      && 3 <= |c| && c[0] == Begin
      && (truncate ==> c[1] == Truncate(table))
      && (forall k :: 0 <= k < |c| ==> (c[k].Truncate? <==> k == 1 && truncate))
      && (forall k :: 0 <= k < |c| && c[k].BulkLoad? ==> c[k] == BulkLoad(file, table, options))
      && (forall k :: 0 <= k < |c| && c[k].BulkLoad? ==> (if truncate then k == 2 else k == 1))
      && c[|c| - 1] == (if tx.committed then Commit else Rollback)
  {
  }

  /** The calls of one transaction: its opening, then a rollback of a
      rejected truncation, or the load and its commit or rollback. */
  lemma TxParts(file: LoadFile, table: string, options: LoadOptions, truncate: bool, rejects: set<SinkCall>)
    ensures var tx := Transaction(file, table, options, truncate, rejects);
      var opening := [Begin] + (if truncate then [Truncate(table)] else []);
      var close := if tx.committed then Commit else Rollback;
      tx.calls == opening + (if truncate && Truncate(table) in rejects then [Rollback] else [BulkLoad(file, table, options), close])
  {
  }

  /** What one transaction contributes to the tallies of the whole run. */
  lemma TxTally(file: LoadFile, table: string, options: LoadOptions, truncate: bool, rejects: set<SinkCall>)
    ensures var tx := Transaction(file, table, options, truncate, rejects);
      var c := tx.calls;
      && (Loaded(c) == [file] || (Loaded(c) == [] && !tx.committed))
      && (tx.committed ==> Loaded(c) == [file])
      && Occurrences(c, Begin) == 1
      && Occurrences(c, Commit) == (if tx.committed then 1 else 0)
      && Occurrences(c, Rollback) == (if tx.committed then 0 else 1)
  {
    var tx := Transaction(file, table, options, truncate, rejects);
    var opening := [Begin] + (if truncate then [Truncate(table)] else []);
    var close := if tx.committed then Commit else Rollback;
    var rest := if truncate && Truncate(table) in rejects then [Rollback] else [BulkLoad(file, table, options), close];
    TxParts(file, table, options, truncate, rejects);
    OpeningTally(opening, table, truncate);
    RestTally(rest, file, table, options, close);
    LoadedAppend(opening, rest);
    assert multiset(tx.calls) == multiset(opening) + multiset(rest);
  }

  lemma OpeningTally(opening: seq<SinkCall>, table: string, truncate: bool)
    requires opening == [Begin] + (if truncate then [Truncate(table)] else [])
    ensures Loaded(opening) == []
    ensures multiset(opening)[Begin] == 1 && multiset(opening)[Commit] == 0 && multiset(opening)[Rollback] == 0
  {
    if truncate { assert opening[..1] == [Begin]; }
    assert [Begin][..0] == [];
  }

  lemma RestTally(rest: seq<SinkCall>, file: LoadFile, table: string, options: LoadOptions, close: SinkCall)
    requires close == Commit || close == Rollback
    requires rest == [Rollback] || rest == [BulkLoad(file, table, options), close]
    ensures rest == [Rollback] ==> Loaded(rest) == [] && multiset(rest)[Rollback] == 1 && multiset(rest)[Commit] == 0
    ensures rest != [Rollback] ==> Loaded(rest) == [file]
    ensures rest != [Rollback] ==> multiset(rest)[Commit] == (if close == Commit then 1 else 0)
    ensures rest != [Rollback] ==> multiset(rest)[Rollback] == (if close == Rollback then 1 else 0)
    ensures multiset(rest)[Begin] == 0
  {
    if rest == [Rollback] {
      assert rest[..0] == [];
    } else {
      var load := BulkLoad(file, table, options);
      assert rest[..1] == [load];
      assert [load][..0] == [];
      assert Loaded([load]) == [file];
      assert multiset(rest) == multiset{load, close};
    }
  }

  /** What a rolled-back transaction leaves in the trace. */
  lemma TxRolledBack(file: LoadFile, table: string, options: LoadOptions, truncate: bool, rejects: set<SinkCall>)
    requires !Transaction(file, table, options, truncate, rejects).committed
    ensures RolledBack(Transaction(file, table, options, truncate, rejects).calls, file)
  {
    TxTally(file, table, options, truncate, rejects);
    TxParts(file, table, options, truncate, rejects);
  }

  /** Truncate-once, for a trace of a non-empty list: the trace opens with
      `Begin`; a truncate call occurs exactly when truncation was asked for,
      and then only as the second call, before any `bulk_load`. */
  ghost predicate TruncatesOnce(calls: seq<SinkCall>, table: string, truncate: bool)
  {
    && |calls| >= 3 && calls[0] == Begin
    && (forall k :: 0 <= k < |calls| ==> (calls[k].Truncate? <==> k == 1 && truncate))
    && (truncate ==> calls[1] == Truncate(table))
    && (truncate ==> forall k :: 0 <= k < |calls| && calls[k].BulkLoad? ==> k >= 2)
  }

  /** A run truncates at most once: not at all for an empty list, and as
      `TruncatesOnce` describes otherwise. */
  lemma {:induction false} TruncateOnce(list: seq<LoadFile>, table: string, options: LoadOptions, truncate: bool, rejects: set<SinkCall>)
    ensures var calls := RunLoads(list, table, options, truncate, rejects).calls;
      && (list == [] ==> calls == [])
      && (list != [] ==> TruncatesOnce(calls, table, truncate))
    decreases |list|
  {
    if list != [] {
      var n := |list| - 1;
      var before := RunLoads(list[..n], table, options, truncate, rejects);
      TruncateOnce(list[..n], table, options, truncate, rejects);
      assert list[..n + 1] == list;
      if !before.failed {
        var tx := Transaction(list[n], table, options, truncate && n == 0, rejects);
        RunLoadsStep(list, n, table, options, truncate, rejects);
        TxShape(list[n], table, options, truncate && n == 0, rejects);
        if n == 0 {
          assert list[..n] == [];
          assert before.calls + tx.calls == tx.calls;
        } else {
          assert list[..n] != [];
          TruncatesOnceAppend(before.calls, tx.calls, table, truncate);
        }
      }
    }
  }

  /** Calls without a truncation, appended after a trace that truncates once,
      keep it truncating once. */
  lemma TruncatesOnceAppend(before: seq<SinkCall>, tx: seq<SinkCall>, table: string, truncate: bool)
    requires TruncatesOnce(before, table, truncate)
    requires forall k :: 0 <= k < |tx| ==> !tx[k].Truncate?
    ensures TruncatesOnce(before + tx, table, truncate)
  {
    var calls := before + tx;
    forall k | |before| <= k < |calls|
      ensures !calls[k].Truncate? && k >= 2
    {
      assert calls[k] == tx[k - |before|];
    }
  }

  /** The trace of a rolled-back transaction for `file`: one begin, the load
      attempted or not, no commit, and a rollback at the end. */
  ghost predicate RolledBack(c: seq<SinkCall>, file: LoadFile)
  {
    && (Loaded(c) == [file] || Loaded(c) == [])
    && Occurrences(c, Begin) == 1 && Occurrences(c, Commit) == 0 && Occurrences(c, Rollback) == 1
    && c != [] && c[|c| - 1] == Rollback
  }

  /** The trace of transactions that all committed, loading `files` in order. */
  ghost predicate Committed(c: seq<SinkCall>, files: seq<LoadFile>)
  {
    && Loaded(c) == files
    && Occurrences(c, Begin) == |files|
    && Occurrences(c, Commit) == |files|
    && Occurrences(c, Rollback) == 0
  }

  /** On success every chunk was begun, loaded in list order and committed,
      with nothing rolled back. */
  lemma {:induction false} RunLoadsSucceeded(list: seq<LoadFile>, table: string, options: LoadOptions, truncate: bool, rejects: set<SinkCall>)
    ensures var r := RunLoads(list, table, options, truncate, rejects);
      !r.failed ==> r.completed == |list| && Committed(r.calls, list)
    decreases |list|
  {
    if list != [] {
      var n := |list| - 1;
      var before := RunLoads(list[..n], table, options, truncate, rejects);
      RunLoadsSucceeded(list[..n], table, options, truncate, rejects);
      assert list[..n + 1] == list;
      if !before.failed {
        var tx := Transaction(list[n], table, options, truncate && n == 0, rejects);
        RunLoadsStep(list, n, table, options, truncate, rejects);
        TxTally(list[n], table, options, truncate && n == 0, rejects);
        var calls := before.calls + tx.calls;
        LoadedAppend(before.calls, tx.calls);
        assert multiset(calls) == multiset(before.calls) + multiset(tx.calls);
        SplitLast(list);
      }
    }
  }

  /** What a failed run leaves in the trace: the chunks before the failing
      one were loaded in list order and committed, the failing one was begun
      and rolled back, its load attempted or not. */
  ghost predicate FailedTallies(list: seq<LoadFile>, r: Run)
  {
    && r.completed < |list|
    && (Loaded(r.calls) == list[..r.completed] || Loaded(r.calls) == list[..r.completed + 1])
    && Occurrences(r.calls, Begin) == r.completed + 1
    && Occurrences(r.calls, Commit) == r.completed
    && Occurrences(r.calls, Rollback) == 1
    && r.calls != [] && r.calls[|r.calls| - 1] == Rollback
  }

  /** The run that fails on its last chunk. */
  lemma FailsOnLast(list: seq<LoadFile>, table: string, options: LoadOptions, truncate: bool, rejects: set<SinkCall>)
    requires list != []
    requires !RunLoads(list[..|list| - 1], table, options, truncate, rejects).failed
    requires RunLoads(list, table, options, truncate, rejects).failed
    ensures var r := RunLoads(list, table, options, truncate, rejects);
      r.completed == |list| - 1 && FailedTallies(list, r)
  {
    var n := |list| - 1;
    var before := RunLoads(list[..n], table, options, truncate, rejects);
    var tx := Transaction(list[n], table, options, truncate && n == 0, rejects);
    var r := RunLoads(list, table, options, truncate, rejects);
    assert r == Run(before.calls + tx.calls, n, true) by {
      RunLoadsStep(list, n, table, options, truncate, rejects);
      assert list[..n + 1] == list;
    }
    RunLoadsSucceeded(list[..n], table, options, truncate, rejects);
    TxRolledBack(list[n], table, options, truncate && n == 0, rejects);
    FailedTally(before.calls, tx.calls, list);
  }

  /** The tallies of a committed prefix followed by a rolled-back transaction. */
  lemma FailedTally(before: seq<SinkCall>, tx: seq<SinkCall>, list: seq<LoadFile>)
    requires list != []
    requires Committed(before, list[..|list| - 1])
    requires RolledBack(tx, list[|list| - 1])
    ensures FailedTallies(list, Run(before + tx, |list| - 1, true))
  {
    var n := |list| - 1;
    var calls := before + tx;
    LoadedAppend(before, tx);
    if Loaded(tx) == [] {
      assert Loaded(calls) == list[..n];
    } else {
      SplitLast(list);
      assert list[..n + 1] == list;
    }
    assert multiset(calls) == multiset(before) + multiset(tx);
    assert calls[|calls| - 1] == tx[|tx| - 1];
  }

  /** On failure the chunks before the failing one were committed in list
      order, the failing one was begun and rolled back (its load attempted or
      not), and nothing after it was touched. */
  lemma {:induction false} RunLoadsFailed(list: seq<LoadFile>, table: string, options: LoadOptions, truncate: bool, rejects: set<SinkCall>)
    ensures var r := RunLoads(list, table, options, truncate, rejects);
      r.failed ==> FailedTallies(list, r)
    decreases |list|
  {
    if list != [] {
      var n := |list| - 1;
      var before := RunLoads(list[..n], table, options, truncate, rejects);
      if before.failed {
        RunLoadsFailed(list[..n], table, options, truncate, rejects);
        FailedTalliesExtend(list, n, before);
      } else if RunLoads(list, table, options, truncate, rejects).failed {
        FailsOnLast(list, table, options, truncate, rejects);
      }
    }
  }

  /** A failure within a prefix of the list is a failure within the list. */
  lemma FailedTalliesExtend(list: seq<LoadFile>, n: nat, r: Run)
    requires n <= |list|
    requires FailedTallies(list[..n], r)
    ensures FailedTallies(list, r)
  {
    assert list[..n][..r.completed] == list[..r.completed];
    assert list[..n][..r.completed + 1] == list[..r.completed + 1];
  }

  /** Every chunk is loaded into the same table with the same options, and
      only files of the list are loaded. */
  lemma {:induction false} SameOptions(list: seq<LoadFile>, table: string, options: LoadOptions, truncate: bool, rejects: set<SinkCall>)
    ensures var calls := RunLoads(list, table, options, truncate, rejects).calls;
      forall k :: 0 <= k < |calls| && calls[k].BulkLoad? ==>
        calls[k].table == table && calls[k].options == options && calls[k].file in list
    decreases |list|
  {
    if list != [] {
      var n := |list| - 1;
      var before := RunLoads(list[..n], table, options, truncate, rejects);
      SameOptions(list[..n], table, options, truncate, rejects);
      assert list[..n + 1] == list;
      assert forall f :: f in list[..n] ==> f in list;
      if !before.failed {
        var tx := Transaction(list[n], table, options, truncate && n == 0, rejects);
        RunLoadsStep(list, n, table, options, truncate, rejects);
        TxShape(list[n], table, options, truncate && n == 0, rejects);
        var calls := before.calls + tx.calls;
        forall k | 0 <= k < |calls| && calls[k].BulkLoad?
          ensures calls[k].table == table && calls[k].options == options && calls[k].file in list
        {
          if k >= |before.calls| {
            assert calls[k] == tx.calls[k - |before.calls|];
          } else {
            assert calls[k] == before.calls[k];
          }
        }
      }
    }
  }

  /** `conn.transaction do ... end` around one chunk: begin, truncate if
      asked, load, commit; a call that raises rolls the transaction back. */
  method InTransaction(sink: Sink, file: LoadFile, table: string, options: LoadOptions, truncate: bool) returns (committed: bool)
    modifies sink`trace
    ensures var tx := Transaction(file, table, options, truncate, sink.rejects);
      sink.trace == old(sink.trace) + tx.calls && committed == tx.committed
  {
    sink.Begin();
    if truncate {
      var ok := sink.Truncate(table);
      if !ok {
        sink.Rollback();
        return false;
      }
    }
    var ok := sink.BulkLoad(file, table, options);
    if !ok {
      sink.Rollback();
      return false;
    }
    sink.Commit();
    committed := true;
  }

  /** The outcome of `process`. */
  datatype Status = Done | Skipped | NoSuchFile(path: string) | SinkFailed

  class BulkImportProcessor {
    const file: string
    const target: string
    const table: string
    var truncate: bool
    const columns: Option<seq<string>>
    const fieldSeparator: string
    const fieldEnclosure: Option<string>
    const lineSeparator: string
    const nullString: string
    const disableKeys: bool
    const replace: bool
    const commitEvery: int

    /** The attributes of a configuration `Configure` accepted. */
    constructor (s: Settings)
      ensures file == s.file && target == s.target && table == s.table && truncate == s.truncate
      ensures columns == s.columns && fieldSeparator == s.fieldSeparator && fieldEnclosure == s.fieldEnclosure
      ensures lineSeparator == s.lineSeparator && nullString == s.nullString
      ensures disableKeys == s.disableKeys && replace == s.replace && commitEvery == s.commitEvery
    {
      file, target, table, truncate := s.file, s.target, s.table, s.truncate;
      columns, fieldSeparator, fieldEnclosure := s.columns, s.fieldSeparator, s.fieldEnclosure;
      lineSeparator, nullString := s.lineSeparator, s.nullString;
      disableKeys, replace, commitEvery := s.disableKeys, s.replace, s.commitEvery;
    }

    function Options(): LoadOptions
    {
      BuildOptions(columns, disableKeys, replace, fieldSeparator, fieldEnclosure, lineSeparator, nullString)
    }

    /** `process`. `skip` is the engine's skip-bulk-import switch, `files` the
        file system and `tableName` what the engine resolves the table to. */
    method Process(skip: bool, files: map<string, string>, tableName: string, sink: Sink) returns (status: Status)
      modifies this`truncate, sink`trace
      ensures skip ==> status == Skipped
      ensures !skip && file !in files ==> status == NoSuchFile(file)
      ensures !skip && file in files && files[file] == [] ==> status == Skipped
      ensures skip || file !in files || files[file] == [] ==>
        sink.trace == old(sink.trace) && truncate == old(truncate)
      ensures !skip && file in files && files[file] != [] ==>
        var r := RunLoads(LoadFileList(file, files[file], commitEvery), tableName, Options(), old(truncate), sink.rejects);
        && sink.trace == old(sink.trace) + r.calls
        && status == (if r.failed then SinkFailed else Done)
        && truncate == (old(truncate) && r.completed == 0)
    {
      if skip {
        return Skipped;
      }
      if file !in files {
        return NoSuchFile(file);
      }
      if files[file] == [] {
        return Skipped;
      }
      var list := LoadFileList(file, files[file], commitEvery);
      var failed := LoadChunks(list, tableName, Options(), sink);
      status := if failed then SinkFailed else Done;
    }

    /** The load loop of `process`: one transaction per file of the list,
        truncating in the first one only, stopping at the first error. */
    method LoadChunks(list: seq<LoadFile>, tableName: string, options: LoadOptions, sink: Sink) returns (failed: bool)
      modifies this`truncate, sink`trace
      ensures var r := RunLoads(list, tableName, options, old(truncate), sink.rejects);
        && sink.trace == old(sink.trace) + r.calls
        && failed == r.failed
        && truncate == (old(truncate) && r.completed == 0)
    {
      ghost var start := sink.trace;
      ghost var first := truncate;
      ghost var rejects := sink.rejects;
      ghost var run := Run([], 0, false);
      var i := 0;
      while i < |list|
        invariant 0 <= i <= |list|
        invariant truncate == (first && i == 0)
        invariant run == RunLoads(list[..i], tableName, options, first, rejects)
        invariant !run.failed && run.completed == i
        invariant sink.trace == start + run.calls
      {
        ghost var tx := Transaction(list[i], tableName, options, first && i == 0, rejects);
        RunLoadsStep(list, i, tableName, options, first, rejects);
        ConcatAssoc(start, run.calls, tx.calls);
        var committed := InTransaction(sink, list[i], tableName, options, truncate);
        run := Run(run.calls + tx.calls, if committed then i + 1 else i, !committed);
        if !committed {
          RunLoadsStops(list, i + 1, tableName, options, first, rejects);
          return true;
        }
        truncate := false;
        i := i + 1;
      }
      assert list[..i] == list;
      failed := false;
    }
  }
}
