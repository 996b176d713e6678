/** The migration runner over a connection. */
module MigrationRunner {
  import opened Slots
  import opened Decimals
  import opened MigrationRuns
  import Placeholders
  import Dialects
  import StatementForm
  import Statements
  import StatementSplitter

  /** One directory entry; text is None when it cannot be read. */
  datatype Entry = Entry(name: string, isRegular: bool, text: Option<string>)

  const INT_MAX := 0x7FFFFFFF

  /** How many digits s has from i on. */
  function DigitsEnd(s: string, i: nat): (j: nat)
    requires i <= |s|
    ensures i <= j <= |s| && forall k | i <= k < j :: IsDigit(s[k])
    ensures j < |s| ==> !IsDigit(s[j])
    decreases |s| - i
  {
    if i == |s| || !IsDigit(s[i]) then i else DigitsEnd(s, i + 1)
  }

  /** The integer a file name starts with; a minus sign counts as part of it. */
  function ParseMigrationVersion(name: string): (version: Option<int>)
    ensures version.Some? ==> -INT_MAX - 1 <= version.value <= INT_MAX
  {
    var negative := name != "" && name[0] == '-';
    var start := if negative then 1 else 0;
    var end := DigitsEnd(name, start);
    if end == start then None else
    var digits := name[start..end];
    var value: int := if negative then 0 - Value(digits) else Value(digits);
    if -INT_MAX - 1 <= value <= INT_MAX then Some(value) else None
  }

  predicate IsSql(name: string) {
    |name| >= 4 && name[|name| - 4..] == ".sql"
  }

  predicate IsMigration(entry: Entry) {
    entry.isRegular && IsSql(entry.name) && ParseMigrationVersion(entry.name).Some?
  }

  function MigrationsIn(entries: seq<Entry>): seq<Migration> {
    if entries == [] then [] else
    var last := entries[|entries| - 1];
    MigrationsIn(entries[..|entries| - 1])
    + if IsMigration(last) then [Migration(ParseMigrationVersion(last.name).value, last.name, last.text)] else []
  }

  method Collect(entries: seq<Entry>) returns (migrations: seq<Migration>)
    ensures migrations == MigrationsIn(entries)
  {
    migrations := [];
    for i := 0 to |entries|
      invariant migrations == MigrationsIn(entries[..i])
    {
      assert entries[..i + 1][..i] == entries[..i];
      var entry := entries[i];
      if !entry.isRegular || !IsSql(entry.name) {
        continue;
      }
      var version := ParseMigrationVersion(entry.name);
      if version.None? {
        continue;
      }
      migrations := migrations + [Migration(version.value, entry.name, entry.text)];
    }
    assert entries[..|entries|] == entries;
  }

  // ---- Which files are migrations ----

  lemma {:induction false} DigitsEndAt(s: string, i: nat, j: nat)
    requires i <= j <= |s| && forall k | i <= k < j :: IsDigit(s[k])
    requires j < |s| ==> !IsDigit(s[j])
    ensures DigitsEnd(s, i) == j
    decreases j - i
  {
    if i < j {
      DigitsEndAt(s, i + 1, j);
    }
  }

  /** A file's version is the number its name begins with, with the minus sign in front of it, if it fits 32 bits. */
  lemma VersionIsTheLeadingNumber(sign: string, digits: string, tail: string)
    requires (sign == "" || sign == "-") && IsNumeric(digits) && (tail == "" || !IsDigit(tail[0]))
    ensures var value: int := if sign == "" then Value(digits) else 0 - Value(digits);
            ParseMigrationVersion(sign + digits + tail)
            == if -0x8000_0000 <= value <= 0x7FFF_FFFF then Some(value) else None
  {
    var name, start := sign + digits + tail, |sign|;
    assert !IsDigit('-') && IsDigit(digits[0]);
    assert name[start] == digits[0];
    DigitsEndAt(name, start, start + |digits|);
    assert name[start..start + |digits|] == digits;
  }

  /** A name that begins with no digit, after a minus sign or not, has no version. */
  lemma NoVersionWithoutDigits(name: string)
    requires name == "" || !IsDigit(name[0])
    requires |name| > 1 && name[0] == '-' ==> !IsDigit(name[1])
    ensures ParseMigrationVersion(name) == None
  {
  }

  /** The directory is read entry by entry, and an entry counts exactly when it is a regular file with a version
      and a name that ends in .sql. */
  lemma {:induction false} OnlyMigrationFilesCount(before: seq<Entry>, entry: Entry)
    ensures var taken := MigrationsIn(before + [entry]);
            var version := ParseMigrationVersion(entry.name);
            if entry.isRegular && (exists stem :: stem + ".sql" == entry.name) && version.Some?
            then taken == MigrationsIn(before) + [Migration(version.value, entry.name, entry.text)]
            else taken == MigrationsIn(before)
  {
    assert (before + [entry])[..|before|] == before;
    var name := entry.name;
    if IsSql(name) {
      assert name[..|name| - 4] + ".sql" == name;
    }
    if stem :| stem + ".sql" == name {
      assert name[|name| - 4..] == ".sql";
    }
  }

  /** What is run of a file is a list of statements, in the file's order and with all its text but blanks, comments
      and separators, where it names no placeholder; and nothing is run of a file that cannot be read. */
  lemma FileIsItsStatements(m: Migration, driver: Placeholders.Driver, text: string)
    requires m.text == Some(text)
    ensures StatementsOf(m, driver).Some? ==> StatementForm.IsSplit(StatementsOf(m, driver).value)
    ensures '@' !in text ==>
              && StatementsOf(m, driver).Some?
              && StatementForm.Squeezed(StatementForm.Concat(StatementsOf(m, driver).value))
                 == StatementForm.KeptText(text, false)
    ensures StatementsOf(m.(text := None), driver) == None
  {
    var rendered := Placeholders.Render(text, driver);
    if rendered.Ok? {
      StatementForm.SplitGivesStatements(rendered.value);
    }
    if '@' !in text {
      Dialects.NoPlaceholderNoChange(text, driver);
      StatementForm.SplittingKeepsEverythingElse(text);
    }
  }

  /** A connection, with what its open transaction has done so far. */
  class Connection {
    const driver: Placeholders.Driver
    var history: seq<int>
    var effects: seq<string>
    var inTransaction: bool
    var uncommitted: Db

    constructor (driver: Placeholders.Driver, db: Db)
      ensures this.driver == driver && !inTransaction && Committed() == db
    {
      this.driver := driver;
      history, effects, inTransaction, uncommitted := db.history, db.effects, false, Db([], []);
    }

    ghost function Committed(): Db
      reads this
    {
      Db(history, effects)
    }

    method Begin()
      requires !inTransaction
      modifies this
      ensures inTransaction && uncommitted == Db([], []) && Committed() == old(Committed())
    {
      inTransaction, uncommitted := true, Db([], []);
    }

    /** A definition statement on MariaDB commits at once; elsewhere it waits for the commit. */
    method Execute(statement: string)
      requires inTransaction
      modifies this
      ensures inTransaction
      ensures driver.MariaDb? ==>
                Committed() == Db(old(history), old(effects) + [statement]) && uncommitted == old(uncommitted)
      ensures !driver.MariaDb? ==>
                && Committed() == old(Committed())
                && uncommitted == Db(old(uncommitted).history, old(uncommitted).effects + [statement])
    {
      if driver.MariaDb? {
        effects := effects + [statement];
      } else {
        uncommitted := uncommitted.(effects := uncommitted.effects + [statement]);
      }
    }

    /** The version is the history table's primary key. */
    method Record(version: int) returns (ok: bool)
      requires inTransaction && uncommitted.history == []
      modifies this
      ensures inTransaction && Committed() == old(Committed())
      ensures ok <==> version !in history
      ensures uncommitted == if ok then old(uncommitted).(history := [version]) else old(uncommitted)
    {
      ok := version !in history;
      if ok {
        uncommitted := uncommitted.(history := [version]);
      }
    }

    method Commit()
      requires inTransaction
      modifies this
      ensures !inTransaction
      ensures Committed() == Db(old(history) + old(uncommitted).history, old(effects) + old(uncommitted).effects)
    {
      history, effects := history + uncommitted.history, effects + uncommitted.effects;
      inTransaction := false;
    }

    method Rollback()
      requires inTransaction
      modifies this
      ensures !inTransaction && Committed() == old(Committed())
    {
      inTransaction := false;
    }

    /** MAX(version), or 0 without a row. */
    method Current() returns (current: int)
      ensures current == MaxVersion(history)
    {
      current := MaxVersion(history);
    }

    /** The statements, then the history row. step is the one that raises, if any. */
    method ApplyMigration(m: Migration, statements: seq<string>, step: Option<nat>) returns (ok: bool)
      requires inTransaction && uncommitted == Db([], [])
      modifies this
      ensures inTransaction && history == old(history)
      ensures ok <==> m.version !in history && (step.Some? ==> step.value > |statements|)
      ensures driver.MariaDb? ==>
                effects == old(effects)
                           + StepsBefore(statements, if step.Some? then step.value else |statements|)
      ensures !driver.MariaDb? ==> effects == old(effects)
      ensures ok ==> uncommitted == Db([m.version], if driver.MariaDb? then [] else statements)
    {
      for i := 0 to |statements|
        invariant inTransaction && history == old(history) && uncommitted.history == []
        invariant step.Some? ==> step.value >= i
        invariant driver.MariaDb? ==> effects == old(effects) + statements[..i] && uncommitted.effects == []
        invariant !driver.MariaDb? ==> effects == old(effects) && uncommitted.effects == statements[..i]
      {
        if step == Some(i) {
          return false;
        }
        Execute(statements[i]);
        assert statements[..i + 1] == statements[..i] + [statements[i]];
      }
      assert statements[..|statements|] == statements;
      if step == Some(|statements|) {
        return false;
      }
      ok := Record(m.version);
    }

    /** One file in its transaction: committed whole, or rolled back. */
    method InTransaction(m: Migration, statements: seq<string>, faults: Faults) returns (ok: bool)
      requires !inTransaction
      modifies this
      ensures !inTransaction
      ensures Committed() == Attempted(old(Committed()), m, statements, faults, SettingFor(driver))
      ensures ok <==> Commits(old(Committed()), m, statements, faults)
    {
      var step := if m.version in faults then Some(faults[m.version]) else None;
      Begin();
      ok := ApplyMigration(m, statements, step);
      if ok && step == Some(|statements| + 1) {
        ok := false;
      }
      if ok {
        Commit();
      } else {
        Rollback();
      }
    }

    /** dir is None when the directory does not exist. */
    method RunMigrations(table: string, dir: Option<seq<Entry>>, trouble: Trouble, faults: Faults)
        returns (success: bool, applied: nat, currentVersion: int)
      requires !inTransaction
      modifies this
      ensures !inTransaction
      ensures Outcome(Committed(), success, applied, currentVersion)
           == Call(old(Committed()), table, if dir.None? then None else Some(MigrationsIn(dir.value)), trouble, faults,
                   SettingFor(driver), !driver.Sqlite?)
    {
      if !IsTableName(table) {
        return false, 0, 0;
      }
      if dir.None? {
        return true, 0, 0;
      }
      var migrations := Collect(dir.value);
      migrations := Sorted(migrations);
      if trouble.Before? {
        return false, 0, 0;
      }
      var current := Current();
      success, applied, currentVersion := ApplyNewer(migrations, current, faults);
      if trouble.After? && !driver.Sqlite? {
        return false, 0, 0;
      }
    }

    method ApplyNewer(migrations: seq<Migration>, current: int, faults: Faults)
        returns (success: bool, applied: nat, currentVersion: int)
      requires !inTransaction
      modifies this
      ensures !inTransaction
      ensures Outcome(Committed(), success, applied, currentVersion)
           == Loop(Outcome(old(Committed()), true, 0, current), migrations, current, faults, SettingFor(driver))
    {
      success, applied, currentVersion := true, 0, current;
      ghost var c, so := SettingFor(driver), Outcome(Committed(), true, 0, current);
      ghost var trace := [so];
      for i := 0 to |migrations|
        invariant !inTransaction && success
        invariant |trace| == i + 1 && IsTrace(so, migrations, current, faults, c, trace)
        invariant trace[i] == Outcome(Committed(), true, applied, currentVersion)
      {
        var taken;
        success, taken := Take(migrations[i], current, faults, Outcome(Committed(), true, applied, currentVersion));
        if !success {
          TraceEnds(so, migrations, current, faults, c, trace, Outcome(Committed(), false, applied, currentVersion));
          return;
        }
        if taken {
          applied := applied + 1;
          currentVersion := migrations[i].version;
        }
        trace := trace + [Outcome(Committed(), true, applied, currentVersion)];
      }
      TraceEnds(so, migrations, current, faults, c, trace, Outcome(Committed(), true, applied, currentVersion));
    }

    /** One file: passed over, applied, or the end of the run. */
    method Take(m: Migration, current: int, faults: Faults, ghost so: Outcome) returns (success: bool, taken: bool)
      requires !inTransaction && so.success && so.db == Committed()
      modifies this
      ensures !inTransaction
      ensures var c := SettingFor(driver);
              if success then
                Turned(so,
                       if taken then Outcome(Committed(), true, so.applied + 1, m.version) else so.(db := Committed()),
                       m, current, faults, c)
              else Broke(so, so.(db := Committed(), success := false), m, current, faults, c)
    {
      if m.version <= current {
        return true, false;
      }
      var statements := Read(m);
      if statements.None? {
        return false, false;
      }
      success := InTransaction(m, statements.value, faults);
      taken := success;
    }

    /** A file's statements for this driver, or None when it is unreadable or names an unknown placeholder. */
    method Read(m: Migration) returns (statements: Option<seq<string>>)
      ensures statements == StatementsOf(m, driver) == SettingFor(driver).read(m)
    {
      if m.text.None? {
        return None;
      }
      var resolved := Dialects.ResolveDialect(m.text.value, driver);
      if resolved.UnknownPlaceholder? {
        return None;
      }
      var split := StatementSplitter.SplitStatements(resolved.value);
      statements := Some(split);
    }
  }
}
