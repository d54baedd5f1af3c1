/**
 Moving recorded Codex sessions from one provider to another, across JSONL
 session files and SQLite state databases, and the provider counts around it.
 */
module SessionRetag {
  import opened Basics
  import opened Text

  type Provider = string

  /** A JSON value as far as the tool looks: a string, or anything else including a missing key. */
  datatype Value = Str(text: Provider) | Other
  datatype Payload = Object(provider: Value, rest: nat) | NotObject(rest: nat)
  datatype Record = Record(provider: Value, sessionMeta: bool, payload: Payload, rest: nat)

  /** A line that is not a JSON object is kept as it is. */
  datatype Line = Json(record: Record) | Raw(text: string)
  type File = seq<Line>

  /** One state database: `usable` when it has the threads table with a provider column. */
  datatype Database = Database(usable: bool, rows: seq<Value>)

  // ----- one record -----

  function RecordProvider(r: Record): Option<Provider> {
    if r.provider.Str? then Some(r.provider.text)
    else if !r.sessionMeta || r.payload.NotObject? || r.payload.provider.Other? then None
    else Some(r.payload.provider.text)
  }

  /** The record rewritten, or nothing when it does not name the source. */
  function RetagRecord(r: Record, source: Provider, target: Provider): Option<Record> {
    if r.provider == Str(source) then Some(r.(provider := Str(target)))
    else if !r.sessionMeta || r.payload.NotObject? || r.payload.provider != Str(source) then None
    else Some(r.(payload := r.payload.(provider := Str(target))))
  }

  function RetagLine(line: Line, source: Provider, target: Provider): Line {
    if line.Raw? then line
    else
      var r := RetagRecord(line.record, source, target);
      if r.Some? then Json(r.value) else line
  }

  function LineProvider(line: Line): Option<Provider> {
    if line.Json? then RecordProvider(line.record) else None
  }

  /** A record that counts for the source comes to count for the target; any other keeps its count, even if rewritten. */
  lemma RetagMovesRecord(line: Line, source: Provider, target: Provider)
    requires source != target
    ensures LineProvider(RetagLine(line, source, target)) ==
            if LineProvider(line) == Some(source) then Some(target) else LineProvider(line)
    ensures LineProvider(line) == Some(source) ==> RetagLine(line, source, target) != line
  {
  }

  /** The record apart from its providers. */
  function Blanked(r: Record): Record {
    r.(provider := Other, payload := if r.payload.Object? then r.payload.(provider := Other) else r.payload)
  }

  /** Rewriting puts the target in the place of the source, once, and leaves everything else of the record. */
  lemma RetagTouchesOnlyProvider(r: Record, source: Provider, target: Provider)
    requires RetagRecord(r, source, target).Some?
    ensures var s := RetagRecord(r, source, target).value;
            && Blanked(s) == Blanked(r)
            && if r.provider == Str(source) then s.provider == Str(target) && s.payload == r.payload
               else s.provider == r.provider && r.payload.Object? && s.payload.Object?
                    && r.payload.provider == Str(source) && s.payload.provider == Str(target)
  {
  }

  /** Rewriting back restores the record exactly when its own provider field was not the target already. */
  lemma RetagBackIff(r: Record, source: Provider, target: Provider)
    requires source != target && RetagRecord(r, source, target).Some?
    ensures RetagRecord(RetagRecord(r, source, target).value, target, source) == Some(r) <==> r.provider != Str(target)
  {
  }

  /** A record is rewritten exactly when it names the source where the tool looks. */
  lemma RetagsIff(r: Record, source: Provider, target: Provider)
    ensures RetagRecord(r, source, target).Some? <==>
            || r.provider == Str(source)
            || (r.sessionMeta && r.payload.Object? && r.payload.provider == Str(source))
  {
  }

  // ----- counting -----

  function FileCount(file: File, p: Provider): nat {
    if file == [] then 0 else (if LineProvider(file[0]) == Some(p) then 1 else 0) + FileCount(file[1..], p)
  }

  function RowCount(rows: seq<Value>, p: Provider): nat {
    if rows == [] then 0 else (if rows[0] == Str(p) then 1 else 0) + RowCount(rows[1..], p)
  }

  function DbCount(db: Database, p: Provider): nat {
    if db.usable then RowCount(db.rows, p) else 0
  }

  function FilesCount(files: seq<File>, p: Provider): nat {
    if files == [] then 0 else FileCount(files[0], p) + FilesCount(files[1..], p)
  }

  function DbsCount(dbs: seq<Database>, p: Provider): nat {
    if dbs == [] then 0 else DbCount(dbs[0], p) + DbsCount(dbs[1..], p)
  }

  function Count(counts: map<Provider, nat>, p: Provider): nat {
    if p in counts then counts[p] else 0
  }

  function Bump(counts: map<Provider, nat>, p: Option<Provider>): map<Provider, nat> {
    if p.None? then counts else counts[p.value := Count(counts, p.value) + 1]
  }

  lemma {:induction false} FileCountStep(file: File, i: int, p: Provider)
    requires 0 <= i < |file|
    ensures FileCount(file[..i + 1], p) == FileCount(file[..i], p) + if LineProvider(file[i]) == Some(p) then 1 else 0
  {
    if i == 0 {
      assert file[..1] == [file[0]];
    } else {
      assert file[..i + 1][1..] == file[1..][..i] && file[..i][1..] == file[1..][..i - 1];
      FileCountStep(file[1..], i - 1, p);
    }
  }

  lemma {:induction false} RowCountStep(rows: seq<Value>, i: int, p: Provider)
    requires 0 <= i < |rows|
    ensures RowCount(rows[..i + 1], p) == RowCount(rows[..i], p) + if rows[i] == Str(p) then 1 else 0
  {
    if i == 0 {
      assert rows[..1] == [rows[0]];
    } else {
      assert rows[..i + 1][1..] == rows[1..][..i] && rows[..i][1..] == rows[1..][..i - 1];
      RowCountStep(rows[1..], i - 1, p);
    }
  }

  ghost predicate Adds(before: map<Provider, nat>, after: map<Provider, nat>, more: Provider -> nat) {
    forall p :: Count(after, p) == Count(before, p) + more(p)
  }

  method CountFile(file: File, before: map<Provider, nat>) returns (counts: map<Provider, nat>)
    ensures Adds(before, counts, p => FileCount(file, p))
  {
    counts := before;
    for i := 0 to |file|
      invariant Adds(before, counts, p => FileCount(file[..i], p))
    {
      forall p ensures Count(Bump(counts, LineProvider(file[i])), p) == Count(before, p) + FileCount(file[..i + 1], p) {
        FileCountStep(file, i, p);
      }
      counts := Bump(counts, LineProvider(file[i]));
    }
    assert file[..|file|] == file;
  }

  method CountRows(rows: seq<Value>, before: map<Provider, nat>) returns (counts: map<Provider, nat>)
    ensures Adds(before, counts, p => RowCount(rows, p))
  {
    counts := before;
    for i := 0 to |rows|
      invariant Adds(before, counts, p => RowCount(rows[..i], p))
    {
      var provider := if rows[i].Str? then Some(rows[i].text) else None;
      forall p ensures Count(Bump(counts, provider), p) == Count(before, p) + RowCount(rows[..i + 1], p) {
        RowCountStep(rows, i, p);
      }
      counts := Bump(counts, provider);
    }
    assert rows[..|rows|] == rows;
  }

  method ProviderCounts(files: seq<File>, dbs: seq<Database>) returns (counts: map<Provider, nat>)
    ensures forall p :: Count(counts, p) == FilesCount(files, p) + DbsCount(dbs, p)
  {
    counts := map[];
    for i := 0 to |files|
      invariant forall p :: Count(counts, p) + FilesCount(files[i..], p) == FilesCount(files, p)
    {
      assert files[i..][1..] == files[i + 1..];
      counts := CountFile(files[i], counts);
    }
    for i := 0 to |dbs|
      invariant forall p :: Count(counts, p) + DbsCount(dbs[i..], p) == FilesCount(files, p) + DbsCount(dbs, p)
    {
      assert dbs[i..][1..] == dbs[i + 1..];
      if dbs[i].usable {
        counts := CountRows(dbs[i].rows, counts);
      }
    }
  }

  /** The provider each line counts for. */
  function LineProviders(file: File): (r: seq<Option<Provider>>)
    ensures |r| == |file| && forall i :: 0 <= i < |r| ==> r[i] == LineProvider(file[i])
  {
    seq(|file|, i requires 0 <= i < |file| => LineProvider(file[i]))
  }

  /** Counting counts: how often the provider comes among the lines, and among the rows of a usable database. */
  lemma {:induction false} FileCountCounts(file: File, p: Provider)
    ensures FileCount(file, p) == multiset(LineProviders(file))[Some(p)]
  {
    var all := LineProviders(file);
    if file != [] {
      FileCountCounts(file[1..], p);
      assert all == [all[0]] + LineProviders(file[1..]);
    }
  }

  lemma {:induction false} RowCountCounts(rows: seq<Value>, p: Provider)
    ensures RowCount(rows, p) == multiset(rows)[Str(p)]
  {
    if rows != [] {
      RowCountCounts(rows[1..], p);
      assert rows == [rows[0]] + rows[1..];
    }
  }

  lemma DbCountCounts(db: Database, p: Provider)
    ensures db.usable ==> DbCount(db, p) == multiset(db.rows)[Str(p)]
    ensures !db.usable ==> DbCount(db, p) == 0
  {
    RowCountCounts(db.rows, p);
  }

  /** A record counts for its own provider, or if it has none and starts a session for its payload's; other lines for none. */
  lemma CountsFor(line: Line, p: Provider)
    ensures LineProvider(line) == Some(p) <==>
            && line.Json?
            && var r := line.record;
               || r.provider == Str(p)
               || (r.provider.Other? && r.sessionMeta && r.payload.Object? && r.payload.provider == Str(p))
  {
  }

  function AllLines(files: seq<File>): File {
    if files == [] then [] else files[0] + AllLines(files[1..])
  }

  function UsableRows(dbs: seq<Database>): seq<Value> {
    if dbs == [] then [] else (if dbs[0].usable then dbs[0].rows else []) + UsableRows(dbs[1..])
  }

  /** And over all stores. */
  lemma {:induction false} FilesCountCounts(files: seq<File>, p: Provider)
    ensures FilesCount(files, p) == multiset(LineProviders(AllLines(files)))[Some(p)]
  {
    if files != [] {
      FilesCountCounts(files[1..], p);
      FileCountCounts(files[0], p);
      assert LineProviders(AllLines(files)) == LineProviders(files[0]) + LineProviders(AllLines(files[1..]));
    }
  }

  lemma {:induction false} DbsCountCounts(dbs: seq<Database>, p: Provider)
    ensures DbsCount(dbs, p) == multiset(UsableRows(dbs))[Str(p)]
  {
    if dbs != [] {
      DbsCountCounts(dbs[1..], p);
      DbCountCounts(dbs[0], p);
    }
  }

  // ----- retagging -----

  function RetagLines(file: File, source: Provider, target: Provider): (r: File)
    ensures |r| == |file| && forall i :: 0 <= i < |r| ==> r[i] == RetagLine(file[i], source, target)
  {
    seq(|file|, i requires 0 <= i < |file| => RetagLine(file[i], source, target))
  }

  predicate FileMatches(file: File, source: Provider) {
    exists i :: 0 <= i < |file| && LineProvider(file[i]) == Some(source)
  }

  /** A file is opened for writing only when some record of it counts for the source. */
  function RetaggedFile(file: File, source: Provider, target: Provider): File {
    if FileMatches(file, source) then RetagLines(file, source, target) else file
  }

  function RetagRow(row: Value, source: Provider, target: Provider): Value {
    if row == Str(source) then Str(target) else row
  }

  function RetagRows(rows: seq<Value>, source: Provider, target: Provider): (r: seq<Value>)
    ensures |r| == |rows| && forall i :: 0 <= i < |r| ==> r[i] == RetagRow(rows[i], source, target)
  {
    seq(|rows|, i requires 0 <= i < |rows| => RetagRow(rows[i], source, target))
  }

  function RetaggedDb(db: Database, source: Provider, target: Provider): Database {
    if DbCount(db, source) > 0 then db.(rows := RetagRows(db.rows, source, target)) else db
  }

  /** What a count becomes when everything of the source moves to the target. */
  function Moved(count: nat, fromSource: nat, p: Provider, source: Provider, target: Provider): nat {
    if p == source then 0 else if p == target then fromSource + count else count
  }

  lemma {:induction false} LinesMove(file: File, source: Provider, target: Provider, p: Provider)
    requires source != target
    ensures FileCount(RetagLines(file, source, target), p) ==
            Moved(FileCount(file, p), FileCount(file, source), p, source, target)
  {
    if file != [] {
      assert RetagLines(file, source, target)[1..] == RetagLines(file[1..], source, target);
      RetagMovesRecord(file[0], source, target);
      LinesMove(file[1..], source, target, p);
    }
  }

  lemma {:induction false} UnmatchedCountsNone(file: File, source: Provider)
    requires !FileMatches(file, source)
    ensures FileCount(file, source) == 0
  {
    if file != [] {
      assert forall i :: 0 <= i < |file[1..]| ==> file[1..][i] == file[i + 1];
      UnmatchedCountsNone(file[1..], source);
    }
  }

  lemma FileMoves(file: File, source: Provider, target: Provider, p: Provider)
    requires source != target
    ensures FileCount(RetaggedFile(file, source, target), p) ==
            Moved(FileCount(file, p), FileCount(file, source), p, source, target)
  {
    if FileMatches(file, source) {
      LinesMove(file, source, target, p);
    } else {
      UnmatchedCountsNone(file, source);
    }
  }

  /** A file is rewritten line by line if some record of it counts for the source, and is otherwise left alone. */
  lemma RetaggedFileIs(file: File, source: Provider, target: Provider)
    ensures Some(source) !in LineProviders(file) ==> RetaggedFile(file, source, target) == file
    ensures Some(source) in LineProviders(file) ==>
              var r := RetaggedFile(file, source, target);
              |r| == |file| && forall i :: 0 <= i < |r| ==> r[i] == RetagLine(file[i], source, target)
  {
    if Some(source) in LineProviders(file) {
      var i :| 0 <= i < |file| && LineProviders(file)[i] == Some(source);
      assert LineProvider(file[i]) == Some(source);
    } else {
      forall i | 0 <= i < |file| ensures LineProvider(file[i]) != Some(source) {
        assert LineProviders(file)[i] in LineProviders(file);
      }
    }
  }

  /** A database that is not usable is left alone, and so is every row that is not of the source. */
  lemma RetaggedDbIs(db: Database, source: Provider, target: Provider, i: int)
    requires 0 <= i < |db.rows|
    ensures var r := RetaggedDb(db, source, target);
            && r.usable == db.usable && |r.rows| == |db.rows|
            && r.rows[i] == if db.usable && db.rows[i] == Str(source) then Str(target) else db.rows[i]
  {
    DbCountCounts(db, source);
    if db.rows[i] == Str(source) { assert db.rows[i] in multiset(db.rows); }
  }

  lemma {:induction false} RowsMove(rows: seq<Value>, source: Provider, target: Provider, p: Provider)
    requires source != target
    ensures RowCount(RetagRows(rows, source, target), p) ==
            Moved(RowCount(rows, p), RowCount(rows, source), p, source, target)
  {
    if rows != [] {
      assert RetagRows(rows, source, target)[1..] == RetagRows(rows[1..], source, target);
      RowsMove(rows[1..], source, target, p);
    }
  }

  lemma DbMoves(db: Database, source: Provider, target: Provider, p: Provider)
    requires source != target
    ensures DbCount(RetaggedDb(db, source, target), p) ==
            Moved(DbCount(db, p), DbCount(db, source), p, source, target)
  {
    RowsMove(db.rows, source, target, p);
  }

  function RetaggedFiles(files: seq<File>, source: Provider, target: Provider): (r: seq<File>)
    ensures |r| == |files| && forall i :: 0 <= i < |r| ==> r[i] == RetaggedFile(files[i], source, target)
  {
    seq(|files|, i requires 0 <= i < |files| => RetaggedFile(files[i], source, target))
  }

  function RetaggedDbs(dbs: seq<Database>, source: Provider, target: Provider): (r: seq<Database>)
    ensures |r| == |dbs| && forall i :: 0 <= i < |r| ==> r[i] == RetaggedDb(dbs[i], source, target)
  {
    seq(|dbs|, i requires 0 <= i < |dbs| => RetaggedDb(dbs[i], source, target))
  }

  lemma {:induction false} FilesMove(files: seq<File>, source: Provider, target: Provider, p: Provider)
    requires source != target
    ensures FilesCount(RetaggedFiles(files, source, target), p) ==
            Moved(FilesCount(files, p), FilesCount(files, source), p, source, target)
  {
    if files != [] {
      assert RetaggedFiles(files, source, target)[1..] == RetaggedFiles(files[1..], source, target);
      FileMoves(files[0], source, target, p);
      FilesMove(files[1..], source, target, p);
    }
  }

  lemma {:induction false} DbsMove(dbs: seq<Database>, source: Provider, target: Provider, p: Provider)
    requires source != target
    ensures DbsCount(RetaggedDbs(dbs, source, target), p) ==
            Moved(DbsCount(dbs, p), DbsCount(dbs, source), p, source, target)
  {
    if dbs != [] {
      assert RetaggedDbs(dbs, source, target)[1..] == RetaggedDbs(dbs[1..], source, target);
      DbMoves(dbs[0], source, target, p);
      DbsMove(dbs[1..], source, target, p);
    }
  }

  function Total(files: seq<File>, dbs: seq<Database>, p: Provider): nat {
    FilesCount(files, p) + DbsCount(dbs, p)
  }

  /** The source ends with nothing, the target with both, and every other provider with what it had. */
  lemma RetagConservesCounts(files: seq<File>, dbs: seq<Database>, source: Provider, target: Provider, p: Provider)
    requires source != target
    ensures Total(RetaggedFiles(files, source, target), RetaggedDbs(dbs, source, target), p) ==
            if p == source then 0
            else if p == target then Total(files, dbs, source) + Total(files, dbs, target)
            else Total(files, dbs, p)
  {
    FilesMove(files, source, target, p);
    DbsMove(dbs, source, target, p);
  }

  // ----- the command -----

  datatype Report = Report(before: map<Provider, nat>, after: map<Provider, nat>,
                           filesMatched: nat, filesUpdated: nat, rowsMatched: nat, rowsUpdated: nat)

  predicate ValidProviders(source: Provider, target: Provider) {
    source != target && {source, target} <= {"openai", "codex-lb"}
  }

  function Matching(files: seq<File>, source: Provider): nat {
    if files == [] then 0 else (if FileMatches(files[0], source) then 1 else 0) + Matching(files[1..], source)
  }

  /** Whether each file has a record that counts for the source. */
  function Matches(files: seq<File>, source: Provider): (r: seq<bool>)
    ensures |r| == |files| && forall i :: 0 <= i < |r| ==> (r[i] <==> Some(source) in LineProviders(files[i]))
  {
    seq(|files|, i requires 0 <= i < |files| => Some(source) in LineProviders(files[i]))
  }

  lemma {:induction false} MatchingCounts(files: seq<File>, source: Provider)
    ensures Matching(files, source) == multiset(Matches(files, source))[true]
  {
    if files != [] {
      MatchingCounts(files[1..], source);
      assert Matches(files, source) == [Matches(files, source)[0]] + Matches(files[1..], source);
      MatchesIff(files[0], source);
    }
  }

  lemma MatchesIff(file: File, source: Provider)
    ensures FileMatches(file, source) <==> Some(source) in LineProviders(file)
  {
    if i :| 0 <= i < |file| && LineProvider(file[i]) == Some(source) { assert LineProviders(file)[i] == Some(source); }
  }

  method RetagJsonlFile(file: File, source: Provider, target: Provider) returns (output: File, changed: bool)
    requires source != target
    ensures output == RetagLines(file, source, target)
    ensures changed <==> output != file
    ensures FileMatches(file, source) ==> changed
  {
    output, changed := [], false;
    for i := 0 to |file|
      invariant |output| == i && forall j :: 0 <= j < i ==> output[j] == RetagLine(file[j], source, target)
      invariant changed <==> exists j :: 0 <= j < i && output[j] != file[j]
    {
      RetagMovesRecord(file[i], source, target);
      if file[i].Json? && RetagRecord(file[i].record, source, target).Some? {
        changed := true;
        output := output + [Json(RetagRecord(file[i].record, source, target).value)];
        assert output[i] != file[i];
      } else {
        output := output + [file[i]];
      }
    }
    forall j | 0 <= j < |file| && LineProvider(file[j]) == Some(source) ensures output[j] != file[j] {
      RetagMovesRecord(file[j], source, target);
    }
  }

  method UpdateSqliteProvider(rows: seq<Value>, source: Provider, target: Provider)
    returns (output: seq<Value>, updated: nat)
    ensures output == RetagRows(rows, source, target) && updated == RowCount(rows, source)
  {
    output, updated := [], 0;
    for i := 0 to |rows|
      invariant |output| == i && forall j :: 0 <= j < i ==> output[j] == RetagRow(rows[j], source, target)
      invariant updated == RowCount(rows[..i], source)
    {
      RowCountStep(rows, i, source);
      if rows[i] == Str(source) {
        output, updated := output + [Str(target)], updated + 1;
      } else {
        output := output + [rows[i]];
      }
    }
    assert rows[..|rows|] == rows;
  }

  class Home {
    var files: seq<File>
    var dbs: seq<Database>

    constructor (files: seq<File>, dbs: seq<Database>)
      ensures this.files == files && this.dbs == dbs
    {
      this.files, this.dbs := files, dbs;
    }

    method RetagFiles(source: Provider, target: Provider) returns (updated: nat)
      requires source != target
      modifies this`files
      ensures files == RetaggedFiles(old(files), source, target)
      ensures updated == Matching(old(files), source)
    {
      updated := 0;
      for i := 0 to |files|
        invariant |files| == |old(files)|
        invariant forall j :: 0 <= j < i ==> files[j] == RetaggedFile(old(files)[j], source, target)
        invariant forall j :: i <= j < |files| ==> files[j] == old(files)[j]
        invariant updated + Matching(old(files)[i..], source) == Matching(old(files), source)
      {
        assert old(files)[i..][1..] == old(files)[i + 1..];
        if FileMatches(files[i], source) {
          var output, changed := RetagJsonlFile(files[i], source, target);
          if changed {
            files := files[i := output];
            updated := updated + 1;
          }
        }
      }
    }

    method RetagDbs(source: Provider, target: Provider) returns (updated: nat)
      modifies this`dbs
      ensures dbs == RetaggedDbs(old(dbs), source, target)
      ensures updated == DbsCount(old(dbs), source)
    {
      updated := 0;
      for i := 0 to |dbs|
        invariant |dbs| == |old(dbs)|
        invariant forall j :: 0 <= j < i ==> dbs[j] == RetaggedDb(old(dbs)[j], source, target)
        invariant forall j :: i <= j < |dbs| ==> dbs[j] == old(dbs)[j]
        invariant updated + DbsCount(old(dbs)[i..], source) == DbsCount(old(dbs), source)
      {
        assert old(dbs)[i..][1..] == old(dbs)[i + 1..];
        if DbCount(dbs[i], source) > 0 {
          var output, n := UpdateSqliteProvider(dbs[i].rows, source, target);
          dbs, updated := dbs[i := dbs[i].(rows := output)], updated + n;
        }
      }
    }

    /** Rejects unsupported providers; a dry run reports and changes nothing; a real run updates every match. */
    method RetagSessions(from: string, to: string, dryRun: bool) returns (r: Result<Report>)
      modifies this
      ensures r.Ok? <==> ValidProviders(Strip(from), Strip(to))
      ensures r.Ok? <==> (Strip(from) == "openai" && Strip(to) == "codex-lb") ||
                         (Strip(from) == "codex-lb" && Strip(to) == "openai")
      ensures r.Err? || dryRun ==> files == old(files) && dbs == old(dbs)
      ensures r.Ok? && !dryRun ==>
                && files == RetaggedFiles(old(files), Strip(from), Strip(to))
                && dbs == RetaggedDbs(old(dbs), Strip(from), Strip(to))
      ensures r.Ok? ==> r.value.filesMatched == Matching(old(files), Strip(from))
                        && r.value.rowsMatched == DbsCount(old(dbs), Strip(from))
      ensures r.Ok? && !dryRun ==> r.value.filesUpdated == r.value.filesMatched
                                   && r.value.rowsUpdated == r.value.rowsMatched
      ensures r.Ok? ==> forall p :: Count(r.value.before, p) == Total(old(files), old(dbs), p)
      ensures r.Ok? ==> forall p :: Count(r.value.after, p) == Total(files, dbs, p)
    {
      var source, target := Strip(from), Strip(to);
      if !ValidProviders(source, target) {
        return Err;
      }
      var before := ProviderCounts(files, dbs);
      var filesMatched, rowsMatched := Matching(files, source), DbsCount(dbs, source);
      if dryRun {
        return Ok(Report(before, before, filesMatched, 0, rowsMatched, 0));
      }
      var filesUpdated := RetagFiles(source, target);
      var rowsUpdated := RetagDbs(source, target);
      var after := ProviderCounts(files, dbs);
      r := Ok(Report(before, after, filesMatched, filesUpdated, rowsMatched, rowsUpdated));
    }
  }
}
