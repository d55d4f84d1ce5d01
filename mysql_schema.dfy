/**
 * The text-level helpers of the MySQL driver's schema class `craft\db\mysql\Schema`:
 * database-name quoting, the "savepoint does not exist" error filter, the index
 * parser of `findIndexes`, the backup and restore commands, and the contents of the
 * temporary `my.cnf` those commands read.
 */
module MysqlSchema {
  import opened Wrappers
  import opened Strings
  import KeyPattern

  // ---------------------------------------------------------------------------
  // quoteDatabaseName
  // ---------------------------------------------------------------------------

  /** The name between two backticks, unchanged (no escaping of backticks inside it). */
  function QuoteDatabaseName(name: string): (r: string)
    ensures |r| == |name| + 2
    ensures r[0] == '`' && r[|r| - 1] == '`'
    ensures r[1..|r| - 1] == name
  {
    "`" + name + "`"
  }

  // ---------------------------------------------------------------------------
  // releaseSavepoint / rollBackSavepoint
  // ---------------------------------------------------------------------------

  /** SQLSTATE class 42 ("syntax error or access rule violation"), as `getCode()` reports it. */
  const SqlStateAccessViolation := 42000
  /** MySQL error ER_SP_DOES_NOT_EXIST, reported for an unknown savepoint. */
  const MissingSavepointCode := 1305

  /**
   * A `yii\db\Exception` as far as the filter reads it: `getCode()`, the driver
   * error code `errorInfo[1]` (`None` when that slot is unset or null), and the message.
   */
  datatype DbException = DbException(code: int, driverCode: Option<int>, message: string)

  /** What the parent class's savepoint statement did. */
  datatype Outcome = Returned | Threw(exception: DbException)

  /** What the overriding method does: return (possibly after logging a warning) or rethrow. */
  datatype SavepointResult =
    | Done
    | DoneWithWarning(warning: string)
    | Rethrown(exception: DbException)

  /** The "SAVEPOINT does not exist" error the two methods swallow. */
  predicate IsMissingSavepoint(e: DbException)
  {
    e.code == SqlStateAccessViolation && e.driverCode == Some(MissingSavepointCode)
  }

  /** The `catch` block both methods share: swallow the missing-savepoint error with a warning, rethrow anything else. */
  function FilterMissingSavepoint(parent: Outcome, warningPrefix: string): (r: SavepointResult)
    ensures parent.Returned? ==> r == Done
    ensures r.Rethrown? <==> parent.Threw? && !IsMissingSavepoint(parent.exception)
    ensures r.Rethrown? ==> r.exception == parent.exception
    ensures r.DoneWithWarning? <==> parent.Threw? && IsMissingSavepoint(parent.exception)
    ensures r.DoneWithWarning? ==> r.warning == warningPrefix + parent.exception.message
  {
    match parent
    case Returned => Done
    case Threw(e) =>
      if IsMissingSavepoint(e) then DoneWithWarning(warningPrefix + e.message) else Rethrown(e)
  }

  const ReleaseWarning := "Tried to release a savepoint, but it does not exist: "
  const RollBackWarning := "Tried to roll back a savepoint, but it does not exist: "

  /** `releaseSavepoint`: the missing-savepoint error is logged and swallowed, every other exception is rethrown as it was. */
  function ReleaseSavepoint(parent: Outcome): (r: SavepointResult)
    ensures parent.Returned? ==> r == Done
    ensures r.Rethrown? <==> parent.Threw? && !IsMissingSavepoint(parent.exception)
    ensures r.Rethrown? ==> r.exception == parent.exception
    ensures r.DoneWithWarning? <==> parent.Threw? && IsMissingSavepoint(parent.exception)
    ensures r.DoneWithWarning? ==> r.warning == ReleaseWarning + parent.exception.message
  {
    FilterMissingSavepoint(parent, ReleaseWarning)
  }

  /** `rollBackSavepoint`: the same filter, with its own warning text. */
  function RollBackSavepoint(parent: Outcome): (r: SavepointResult)
    ensures parent.Returned? ==> r == Done
    ensures r.Rethrown? <==> parent.Threw? && !IsMissingSavepoint(parent.exception)
    ensures r.Rethrown? ==> r.exception == parent.exception
    ensures r.DoneWithWarning? <==> parent.Threw? && IsMissingSavepoint(parent.exception)
    ensures r.DoneWithWarning? ==> r.warning == RollBackWarning + parent.exception.message
  {
    FilterMissingSavepoint(parent, RollBackWarning)
  }

  // ---------------------------------------------------------------------------
  // findIndexes
  // ---------------------------------------------------------------------------

  /** The stored index name: the first capture with every backtick removed. */
  function IndexName(m: KeyPattern.Match): (r: string)
    ensures '`' !in r
    ensures forall x :: x in r ==> x in m.name
  {
    Remove(m.name, '`')
  }

  /** `array_map('trim', $parts)`. */
  function TrimEach(parts: seq<string>): (r: seq<string>)
    ensures |r| == |parts|
    ensures forall k :: 0 <= k < |r| ==> r[k] == Trim(parts[k])
  {
    seq(|parts|, k requires 0 <= k < |parts| => Trim(parts[k]))
  }

  /** The column list before trimming: the backtick-free second capture exploded on commas. */
  function UntrimmedColumns(m: KeyPattern.Match): (r: seq<string>)
    ensures |r| == Count(m.columns, ',') + 1
    ensures forall k :: 0 <= k < |r| ==> ',' !in r[k]
  {
    RemoveKeepsCount(m.columns, '`', ',');
    Split(Remove(m.columns, '`'), ',')
  }

  /** The stored column list: each piece of `UntrimmedColumns` trimmed. */
  function IndexColumns(m: KeyPattern.Match): seq<string>
  {
    TrimEach(UntrimmedColumns(m))
  }

  /** The index names the matches yield: exactly the names of its elements. */
  function NamesOf(ms: seq<KeyPattern.Match>): (r: set<string>)
    ensures forall k :: 0 <= k < |ms| ==> IndexName(ms[k]) in r
  {
    if |ms| == 0 then {} else NamesOf(ms[..|ms| - 1]) + {IndexName(ms[|ms| - 1])}
  }

  /** Every name in `NamesOf(ms)` is the name of some match in `ms`. */
  lemma {:induction false} NamesOfOnlyNames(ms: seq<KeyPattern.Match>, n: string)
    requires n in NamesOf(ms)
    ensures exists k :: 0 <= k < |ms| && IndexName(ms[k]) == n
  {
    var last := |ms| - 1;
    if IndexName(ms[last]) != n {
      NamesOfOnlyNames(ms[..last], n);
      var k :| 0 <= k < last && IndexName(ms[..last][k]) == n;
      assert IndexName(ms[k]) == n;
    }
  }

  /** No match after the `k`-th and before position `upto` yields the same index name. */
  ghost predicate LastWithName(ms: seq<KeyPattern.Match>, k: nat, upto: nat)
    requires k < upto <= |ms|
  {
    forall j :: k < j < upto ==> IndexName(ms[j]) != IndexName(ms[k])
  }

  /** The map the loop of `findIndexes` builds from `ms`: each match, in order, stores its columns under its name. */
  function Stored(ms: seq<KeyPattern.Match>): (r: map<string, seq<string>>)
    ensures forall k :: 0 <= k < |ms| ==> IndexName(ms[k]) in r
  {
    if |ms| == 0 then map[]
    else Stored(ms[..|ms| - 1])[IndexName(ms[|ms| - 1]) := IndexColumns(ms[|ms| - 1])]
  }

  /** The stored map has an entry for exactly the names of the matches. */
  lemma {:induction false} StoredKeys(ms: seq<KeyPattern.Match>)
    ensures Stored(ms).Keys == NamesOf(ms)
  {
    if |ms| > 0 {
      StoredKeys(ms[..|ms| - 1]);
    }
  }

  /** A later match with the same name overwrites an earlier one: the entry holds the columns of the last match with that name. */
  lemma {:induction false} StoredLastWins(ms: seq<KeyPattern.Match>, k: nat)
    requires k < |ms| && LastWithName(ms, k, |ms|)
    ensures IndexName(ms[k]) in Stored(ms)
    ensures Stored(ms)[IndexName(ms[k])] == IndexColumns(ms[k])
  {
    var last := |ms| - 1;
    if k < last {
      var init := ms[..last];
      assert LastWithName(init, k, |init|) by {
        forall j | k < j < |init| ensures IndexName(init[j]) != IndexName(init[k]) {
          assert init[j] == ms[j];
        }
      }
      StoredLastWins(init, k);
      assert IndexName(ms[last]) != IndexName(ms[k]);
    }
  }

  /** The loop of `findIndexes`: each match stores its columns under its name, later ones overwriting earlier ones. */
  method StoreIndexes(matches: seq<KeyPattern.Match>) returns (indexes: map<string, seq<string>>)
    ensures indexes == Stored(matches)
  {
    indexes := map[];
    var i := 0;
    while i < |matches|
      invariant 0 <= i <= |matches|
      invariant indexes == Stored(matches[..i])
    {
      var m := matches[i];
      assert matches[..i + 1][..i] == matches[..i];
      indexes := indexes[IndexName(m) := IndexColumns(m)];
      i := i + 1;
    }
    assert matches[..i] == matches;
  }

  /**
   * `findIndexes` from the `CREATE TABLE` statement on: one entry per index name
   * found, holding the columns of the LAST match with that name; no match, no entry.
   */
  method FindIndexes(sql: string) returns (indexes: map<string, seq<string>>)
    ensures var ms := KeyPattern.AllMatches(sql);
      && indexes.Keys == NamesOf(ms)
      && (forall k :: 0 <= k < |ms| && LastWithName(ms, k, |ms|) ==> indexes[IndexName(ms[k])] == IndexColumns(ms[k]))
  {
    var matches := KeyPattern.AllMatches(sql);
    indexes := StoreIndexes(matches);
    StoredKeys(matches);
    forall k | 0 <= k < |matches| && LastWithName(matches, k, |matches|)
      ensures indexes[IndexName(matches[k])] == IndexColumns(matches[k])
    {
      StoredLastWins(matches, k);
    }
  }

  /** A stored index name holds no backtick, no `(` and no whitespace. */
  lemma IndexNameShape(sql: string, k: nat)
    requires k < |KeyPattern.AllMatches(sql)|
    ensures var n := IndexName(KeyPattern.AllMatches(sql)[k]);
      forall x :: x in n ==> x != '`' && x != '(' && !KeyPattern.IsSpace(x)
  {
    var m := KeyPattern.AllMatches(sql)[k];
    KeyPattern.CapturesWellFormed(sql, k);
    forall x | x in IndexName(m) ensures x != '`' && x != '(' && !KeyPattern.IsSpace(x) {
      assert x in m.name;
      var y :| 0 <= y < |m.name| && m.name[y] == x;
    }
  }

  /**
   * A stored column list has one entry more than the captured column text has
   * commas; each entry is trimmed and holds no backtick, comma or parenthesis.
   */
  lemma IndexColumnsShape(sql: string, k: nat)
    requires k < |KeyPattern.AllMatches(sql)|
    ensures var m := KeyPattern.AllMatches(sql)[k];
      var cols := IndexColumns(m);
      && |cols| == Count(m.columns, ',') + 1
      && forall j :: 0 <= j < |cols| ==>
           && (cols[j] == [] || (!IsTrimmable(cols[j][0]) && !IsTrimmable(cols[j][|cols[j]| - 1])))
           && (forall x :: x in cols[j] ==> x != '`' && x != ',' && x != '(' && x != ')')
  {
    var m := KeyPattern.AllMatches(sql)[k];
    KeyPattern.CapturesWellFormed(sql, k);
    RemoveKeepsCount(m.columns, '`', ',');
    var cols := IndexColumns(m);
    forall j, x | 0 <= j < |cols| && x in cols[j] ensures x != '`' && x != ',' && x != '(' && x != ')' {
      ColumnCharacter(m, j, x);
    }
  }

  /** A character of a stored column is a character of the captured column text, other than a backtick or a comma. */
  lemma ColumnCharacter(m: KeyPattern.Match, j: nat, x: char)
    requires forall y :: 0 <= y < |m.columns| ==> m.columns[y] != '(' && m.columns[y] != ')'
    requires j < |IndexColumns(m)| && x in IndexColumns(m)[j]
    ensures x != '`' && x != ',' && x != '(' && x != ')'
  {
    var pieces := UntrimmedColumns(m);
    var cols := IndexColumns(m);
    var i := |pieces[j]| - |TrimLeft(pieces[j])|;
    var y :| 0 <= y < |cols[j]| && cols[j][y] == x;
    assert x == pieces[j][i + y];
    assert x in pieces[j];
    assert x in Remove(m.columns, '`') by {
      JoinSplit(Remove(m.columns, '`'), ',');
      JoinContains(pieces, ",", j, x);
    }
    assert x in m.columns;
    var z :| 0 <= z < |m.columns| && m.columns[z] == x;
  }

  /** A character of one piece is a character of the joined text. */
  lemma {:induction false} JoinContains(parts: seq<string>, sep: string, j: nat, x: char)
    requires j < |parts| && x in parts[j]
    ensures x in Join(parts, sep)
  {
    if |parts| > 1 {
      if j > 0 {
        JoinContains(parts[1..], sep, j - 1, x);
      }
      assert Join(parts, sep) == parts[0] + sep + Join(parts[1..], sep);
    }
  }

  /** The untrimmed pieces, joined back with commas, are the backtick-free column text: order is preserved. */
  lemma IndexColumnsInOrder(m: KeyPattern.Match)
    ensures Join(UntrimmedColumns(m), ",") == Remove(m.columns, '`')
    ensures |IndexColumns(m)| == |UntrimmedColumns(m)|
  {
    JoinSplit(Remove(m.columns, '`'), ',');
  }

  // ---------------------------------------------------------------------------
  // _createDumpConfigFile, getDefaultBackupCommand, getDefaultRestoreCommand
  // ---------------------------------------------------------------------------

  /** The database connection settings the dump configuration file records. */
  datatype DbConfig = DbConfig(user: string, password: string, server: string, port: string)

  /** Where `_createDumpConfigFile` writes: `my.cnf` in the temporary directory. */
  function DumpConfigPath(tempPath: string): string
  {
    tempPath + "/my.cnf"
  }

  /** The five lines of the dump configuration, in file order. */
  function DumpConfigLines(config: DbConfig): seq<string>
  {
    ["[client]", "user=" + config.user, "password=" + config.password,
     "host=" + config.server, "port=" + config.port]
  }

  /**
   * The text of the dump configuration file; `eol` is `PHP_EOL`. The source
   * concatenates the five lines with `eol` between them, which is their `Join`.
   */
  function DumpConfigContents(config: DbConfig, eol: string): string
  {
    Join(DumpConfigLines(config), eol)
  }

  /** The `Join` is the source's concatenation: the five lines in order, `eol` between consecutive ones and none at the end. */
  lemma DumpConfigText(config: DbConfig, eol: string)
    ensures DumpConfigContents(config, eol)
         == "[client]" + eol + ("user=" + config.user) + eol + ("password=" + config.password) + eol
            + ("host=" + config.server) + eol + ("port=" + config.port)
  {
    var l0, l1, l2 := "[client]", "user=" + config.user, "password=" + config.password;
    var l3, l4 := "host=" + config.server, "port=" + config.port;
    JoinCons(l3, [l4], eol);
    JoinCons(l2, [l3, l4], eol);
    JoinCons(l1, [l2, l3, l4], eol);
    JoinCons(l0, [l1, l2, l3, l4], eol);
    assert DumpConfigLines(config) == [l0] + [l1, l2, l3, l4];
  }

  /** With `\n` line endings and settings free of newlines, a line reader gets the five lines back, in order. */
  lemma DumpConfigReadsBack(config: DbConfig)
    requires '\n' !in config.user && '\n' !in config.password
    requires '\n' !in config.server && '\n' !in config.port
    ensures Split(DumpConfigContents(config, "\n"), '\n') == DumpConfigLines(config)
    ensures Split(DumpConfigContents(config, "\n"), '\n')[0] == "[client]"
  {
    var ls := DumpConfigLines(config);
    assert '\n' !in ls[0];
    assert '\n' !in ls[1] && '\n' !in ls[2] && '\n' !in ls[3] && '\n' !in ls[4];
    SplitJoin(ls, '\n');
  }

  /** Joining two non-empty lists of words is joining each and putting the separator between. */
  lemma {:induction false} JoinAppend(a: seq<string>, b: seq<string>, sep: string)
    requires |a| > 0 && |b| > 0
    ensures Join(a + b, sep) == Join(a, sep) + sep + Join(b, sep)
  {
    if |a| == 1 {
      assert (a + b)[1..] == b;
    } else {
      JoinAppend(a[1..], b, sep);
      assert (a + b)[1..] == a[1..] + b;
    }
  }

  /** A word that holds no space, when the temporary path holds none. */
  lemma ConfigOptionHasNoSpace(tempPath: string)
    requires ' ' !in tempPath
    ensures ' ' !in "--defaults-extra-file=" + DumpConfigPath(tempPath)
  {
  }

  /** The program a command line runs: its first space-separated word. */
  function Program(command: string): string
  {
    Split(command, ' ')[0]
  }

  /** The options of the backup command between the configuration file and the result file. */
  const BackupOptions: seq<string> :=
    ["--add-drop-table", "--comments", "--create-options", "--dump-date",
     "--no-autocommit", "--routines", "--set-charset", "--triggers"]

  /** The words of the backup command, program first. */
  function BackupArguments(tempPath: string): seq<string>
  {
    ["mysqldump", "--defaults-extra-file=" + DumpConfigPath(tempPath)]
    + BackupOptions
    + ["--result-file={file}", "{database}"]
  }

  /**
   * `getDefaultBackupCommand`; `{file}` and `{database}` are placeholders filled in
   * later. The source concatenates each word after a space, which is the words' `Join`.
   */
  function DefaultBackupCommand(tempPath: string): string
  {
    Join(BackupArguments(tempPath), " ")
  }

  /** The first two words of a list, joined by a space. */
  lemma JoinPair(x: string, y: string)
    ensures Join([x, y], " ") == x + " " + y
  {
    JoinCons(x, [y], " ");
  }

  /** Joining a first part before the rest puts one separator after it. */
  lemma JoinCons(x: string, rest: seq<string>, sep: string)
    requires |rest| > 0
    ensures Join([x] + rest, sep) == x + sep + Join(rest, sep)
  {
    assert ([x] + rest)[1..] == rest;
  }

  /** The join of a list starts with the join of its first part and one separator. */
  lemma JoinHead(a: seq<string>, b: seq<string>, sep: string)
    requires |a| > 0 && |b| > 0
    ensures var h := Join(a, sep) + sep; |h| <= |Join(a + b, sep)| && Join(a + b, sep)[..|h|] == h
  {
    JoinAppend(a, b, sep);
  }

  /** The backup command starts with the dump tool reading the configuration file. */
  lemma BackupCommandHead(tempPath: string)
    ensures var cmd := DefaultBackupCommand(tempPath);
      var head := "mysqldump" + " " + "--defaults-extra-file=" + DumpConfigPath(tempPath) + " ";
      |head| <= |cmd| && cmd[..|head|] == head
  {
    var option := "--defaults-extra-file=" + DumpConfigPath(tempPath);
    var first := ["mysqldump", option];
    var rest := BackupOptions + ["--result-file={file}", "{database}"];
    assert BackupArguments(tempPath) == first + rest;
    JoinHead(first, rest, " ");
    JoinPair("mysqldump", option);
  }

  /** The backup command ends with the result file and the database. */
  lemma BackupCommandTail(tempPath: string)
    ensures var cmd := DefaultBackupCommand(tempPath);
      var tail := " " + "--result-file={file}" + " " + "{database}";
      |tail| <= |cmd| && cmd[|cmd| - |tail|..] == tail
  {
    var init := ["mysqldump", "--defaults-extra-file=" + DumpConfigPath(tempPath)] + BackupOptions;
    var last := ["--result-file={file}", "{database}"];
    assert BackupArguments(tempPath) == init + last;
    JoinAppend(init, last, " ");
    JoinPair("--result-file={file}", "{database}");
    var cmd := DefaultBackupCommand(tempPath);
    assert cmd == Join(init, " ") + (" " + "--result-file={file}" + " " + "{database}");
  }

  /** When the temporary path has no space, a shell splits the backup command into exactly `BackupArguments`. */
  lemma BackupCommandWords(tempPath: string)
    requires ' ' !in tempPath
    ensures Split(DefaultBackupCommand(tempPath), ' ') == BackupArguments(tempPath)
    ensures Program(DefaultBackupCommand(tempPath)) == "mysqldump"
  {
    var args := BackupArguments(tempPath);
    ConfigOptionHasNoSpace(tempPath);
    assert forall k :: 0 <= k < |BackupOptions| ==> ' ' !in BackupOptions[k];
    assert forall k :: 0 <= k < |args| ==> ' ' !in args[k] by {
      forall k | 0 <= k < |args| ensures ' ' !in args[k] {
        if 2 <= k < 10 {
          assert args[k] == BackupOptions[k - 2];
        }
      }
    }
    SplitJoin(args, ' ');
  }

  /** The words of a restore command run by `program`. */
  function RestoreArguments(program: string, tempPath: string): seq<string>
  {
    [program, "--defaults-extra-file=" + DumpConfigPath(tempPath), "{database}", "<", "{file}"]
  }

  /** `getDefaultRestoreCommand` as written: it runs `mysqldump`, which does not read statements from standard input. */
  function DefaultRestoreCommand(tempPath: string): string
  {
    Join(RestoreArguments("mysqldump", tempPath), " ")
  }

  /** The restore command with the `mysql` client, which executes the dump it reads from standard input. */
  function CorrectedRestoreCommand(tempPath: string): string
  {
    Join(RestoreArguments("mysql", tempPath), " ")
  }

  /** The `Join` is the source's concatenation, for either program. */
  lemma RestoreCommandText(program: string, tempPath: string)
    ensures Join(RestoreArguments(program, tempPath), " ")
         == program + " " + "--defaults-extra-file=" + DumpConfigPath(tempPath) + " " + "{database}" + " " + "<" + " " + "{file}"
  {
    var w1 := "--defaults-extra-file=" + DumpConfigPath(tempPath);
    JoinCons("<", ["{file}"], " ");
    JoinCons("{database}", ["<", "{file}"], " ");
    JoinCons(w1, ["{database}", "<", "{file}"], " ");
    JoinCons(program, [w1, "{database}", "<", "{file}"], " ");
    assert RestoreArguments(program, tempPath) == [program] + [w1, "{database}", "<", "{file}"];
  }

  /** A restore command ends with the database and the redirection from the dump file. */
  lemma RestoreCommandShape(program: string, tempPath: string)
    ensures var cmd := Join(RestoreArguments(program, tempPath), " ");
      var tail := " " + "{database}" + " " + "<" + " " + "{file}";
      |tail| <= |cmd| && cmd[|cmd| - |tail|..] == tail
  {
    RestoreCommandText(program, tempPath);
    var head := program + " " + "--defaults-extra-file=" + DumpConfigPath(tempPath);
    var tail := " " + "{database}" + " " + "<" + " " + "{file}";
    assert Join(RestoreArguments(program, tempPath), " ") == head + tail;
  }

  /**
   * The words a shell sees in a restore command when the temporary path holds no
   * space; the first is the program that runs.
   */
  lemma RestoreCommandWords(program: string, tempPath: string)
    requires ' ' !in program && ' ' !in tempPath
    ensures Split(Join(RestoreArguments(program, tempPath), " "), ' ') == RestoreArguments(program, tempPath)
    ensures Program(Join(RestoreArguments(program, tempPath), " ")) == program
  {
    ConfigOptionHasNoSpace(tempPath);
    var args := RestoreArguments(program, tempPath);
    assert ' ' !in args[2] && ' ' !in args[3] && ' ' !in args[4];
    SplitJoin(args, ' ');
  }

  /** The command as written runs the dump tool, not the client a restore needs. */
  lemma RestoreAsWrittenRunsDumpTool(tempPath: string)
    requires ' ' !in tempPath
    ensures Program(DefaultRestoreCommand(tempPath)) == "mysqldump"
    ensures Program(DefaultRestoreCommand(tempPath)) != "mysql"
  {
    RestoreCommandWords("mysqldump", tempPath);
  }

  /** The corrected restore command runs the `mysql` client on the database, reading the dump file. */
  lemma RestoreRunsClient(tempPath: string)
    requires ' ' !in tempPath
    ensures Program(CorrectedRestoreCommand(tempPath)) == "mysql"
    ensures Split(CorrectedRestoreCommand(tempPath), ' ')
         == ["mysql", "--defaults-extra-file=" + DumpConfigPath(tempPath), "{database}", "<", "{file}"]
  {
    RestoreCommandWords("mysql", tempPath);
  }
}
