/** Applying a directory of migrations to a database: which are applied, and what a failed run leaves. */
module MigrationRuns {
  import opened Slots
  import Placeholders
  import Statements

  /** text is None when the file cannot be read. */
  datatype Migration = Migration(version: int, name: string, text: Option<string>)

  /** What is committed: the recorded versions, and the statements run, both in order. */
  datatype Db = Db(history: seq<int>, effects: seq<string>)

  datatype Outcome = Outcome(db: Db, success: bool, applied: nat, currentVersion: int)

  /** What goes wrong during a run: for some versions, the step that raises. A file's statements are its first
      steps, then the history row, then the commit. */
  type Faults = map<int, nat>

  // ---- Order ----

  function Insert(m: Migration, sorted: seq<Migration>): seq<Migration> {
    if sorted == [] || m.version < sorted[0].version then [m] + sorted else [sorted[0]] + Insert(m, sorted[1..])
  }

  function Sorted(files: seq<Migration>): seq<Migration> {
    if files == [] then [] else Insert(files[|files| - 1], Sorted(files[..|files| - 1]))
  }

  predicate Ascending(migrations: seq<Migration>) {
    forall i, j | 0 <= i < j < |migrations| :: migrations[i].version <= migrations[j].version
  }

  predicate StrictlyAscending(migrations: seq<Migration>) {
    forall i, j | 0 <= i < j < |migrations| :: migrations[i].version < migrations[j].version
  }

  predicate Distinct(files: seq<Migration>) {
    forall i, j | 0 <= i < j < |files| :: files[i].version != files[j].version
  }

  lemma {:induction false} InsertKeepsOrder(m: Migration, sorted: seq<Migration>)
    requires Ascending(sorted)
    ensures Ascending(Insert(m, sorted))
    ensures forall x :: x in Insert(m, sorted) <==> x == m || x in sorted
    ensures |Insert(m, sorted)| == |sorted| + 1
  {
    if sorted != [] && m.version >= sorted[0].version {
      InsertKeepsOrder(m, sorted[1..]);
      var rest := Insert(m, sorted[1..]);
      forall i | 0 <= i < |rest| ensures sorted[0].version <= rest[i].version {
        assert rest[i] in rest;
        if rest[i] != m {
          var k :| 0 <= k < |sorted| - 1 && sorted[1..][k] == rest[i];
          assert sorted[k + 1] == rest[i];
        }
      }
    }
  }

  lemma {:induction false} SortedIsAscending(files: seq<Migration>)
    ensures Ascending(Sorted(files)) && |Sorted(files)| == |files|
    ensures forall m :: m in Sorted(files) <==> m in files
  {
    if files != [] {
      SortedIsAscending(files[..|files| - 1]);
      InsertKeepsOrder(files[|files| - 1], Sorted(files[..|files| - 1]));
    }
  }

  lemma {:induction false} InsertKeepsStrict(m: Migration, sorted: seq<Migration>)
    requires StrictlyAscending(sorted) && forall x | x in sorted :: x.version != m.version
    ensures StrictlyAscending(Insert(m, sorted))
  {
    InsertKeepsOrder(m, sorted);
    if sorted != [] && m.version >= sorted[0].version {
      assert sorted[0] in sorted;
      InsertKeepsStrict(m, sorted[1..]);
      InsertKeepsOrder(m, sorted[1..]);
      var rest := Insert(m, sorted[1..]);
      forall i | 0 <= i < |rest| ensures sorted[0].version < rest[i].version {
        assert rest[i] in rest;
        if rest[i] != m {
          var k :| 0 <= k < |sorted| - 1 && sorted[1..][k] == rest[i];
          assert sorted[k + 1] == rest[i];
        }
      }
    }
  }

  lemma {:induction false} SortedIsStrict(files: seq<Migration>)
    requires Distinct(files)
    ensures StrictlyAscending(Sorted(files))
  {
    if files != [] {
      var front := files[..|files| - 1];
      SortedIsStrict(front);
      SortedIsAscending(front);
      InsertKeepsStrict(files[|files| - 1], Sorted(front));
    }
  }

  // ---- One migration ----

  /** read gives a file's statements, or None for one that cannot be applied. rollsBack says whether a file that
      fails leaves nothing behind. */
  datatype Setting = Setting(read: Migration -> Option<seq<string>>, rollsBack: bool)

  ghost function StatementsOf(m: Migration, driver: Placeholders.Driver): Option<seq<string>> {
    if m.text.None? then None else
    match Placeholders.Render(m.text.value, driver)
    case UnknownPlaceholder(_) => None
    case Ok(sql) => Some(Statements.Split(sql))
  }

  /** MariaDB commits every definition statement on its own; the other drivers roll a file back whole. */
  ghost function SettingFor(driver: Placeholders.Driver): Setting {
    Setting(m => StatementsOf(m, driver), !driver.MariaDb?)
  }

  function StepsBefore(statements: seq<string>, step: nat): seq<string> {
    if step < |statements| then statements[..step] else statements
  }

  /** Whether the file's transaction commits: no step raises, and its version is not recorded already. */
  predicate Commits(db: Db, m: Migration, statements: seq<string>, faults: Faults) {
    m.version !in db.history && (m.version in faults ==> faults[m.version] > |statements| + 1)
  }

  function Attempted(db: Db, m: Migration, statements: seq<string>, faults: Faults, c: Setting): Db {
    if Commits(db, m, statements, faults) then Db(db.history + [m.version], db.effects + statements)
    else if c.rollsBack then db
    else db.(effects := db.effects
                      + StepsBefore(statements, if m.version in faults then faults[m.version] else |statements|))
  }

  function MaxVersion(history: seq<int>): (max: int)
    ensures history == [] ==> max == 0
    ensures history != [] ==> max in history
    ensures forall v | v in history :: v <= max
  {
    if history == [] then 0
    else if |history| == 1 then history[0]
    else
      assert history == [history[0]] + history[1..];
      var rest := MaxVersion(history[1..]);
      if history[0] > rest then history[0] else rest
  }

  // ---- The loop ----

  function Loop(so: Outcome, migrations: seq<Migration>, start: int, faults: Faults, c: Setting):
    Outcome
    decreases |migrations|
  {
    if migrations == [] then so else
    var m := migrations[0];
    if m.version <= start then Loop(so, migrations[1..], start, faults, c) else
    var statements := c.read(m);
    if statements.None? then so.(success := false) else
    var db := Attempted(so.db, m, statements.value, faults, c);
    if !Commits(so.db, m, statements.value, faults) then so.(db := db, success := false) else
    Loop(Outcome(db, true, so.applied + 1, m.version), migrations[1..], start, faults, c)
  }

  function Run(db: Db, files: seq<Migration>, faults: Faults, c: Setting): Outcome {
    var start := MaxVersion(db.history);
    Loop(Outcome(db, true, 0, start), Sorted(files), start, faults, c)
  }

  function NextAfter(so: Outcome, m: Migration, statements: seq<string>): Outcome {
    Outcome(Db(so.db.history + [m.version], so.db.effects + statements), true, so.applied + 1, m.version)
  }

  // The loop, turn by turn.

  predicate Turned(b: Outcome, a: Outcome, m: Migration, start: int, faults: Faults, c: Setting) {
    if m.version <= start then a == b
    else c.read(m).Some? && Commits(b.db, m, c.read(m).value, faults) && a == NextAfter(b, m, c.read(m).value)
  }

  /** The turn that ends the loop early. */
  predicate Broke(b: Outcome, a: Outcome, m: Migration, start: int, faults: Faults, c: Setting) {
    && m.version > start
    && match c.read(m)
       case None => a == b.(success := false)
       case Some(statements) =>
         && !Commits(b.db, m, statements, faults)
         && a == b.(db := Attempted(b.db, m, statements, faults, c), success := false)
  }

  ghost predicate IsTrace(so: Outcome, migrations: seq<Migration>, start: int, faults: Faults, c: Setting,
                          trace: seq<Outcome>)
  {
    && 0 < |trace| <= |migrations| + 1 && trace[0] == so
    && forall k | 0 <= k < |trace| - 1 :: Turned(trace[k], trace[k + 1], migrations[k], start, faults, c)
  }

  lemma {:induction false} TraceIsTheLoop(so: Outcome, migrations: seq<Migration>, start: int, faults: Faults,
                                          c: Setting, trace: seq<Outcome>, n: nat)
    requires IsTrace(so, migrations, start, faults, c, trace) && n < |trace|
    ensures Loop(so, migrations, start, faults, c) == Loop(trace[n], migrations[n..], start, faults, c)
  {
    if n == 0 {
      assert migrations[0..] == migrations;
    } else {
      TraceIsTheLoop(so, migrations, start, faults, c, trace, n - 1);
      assert Turned(trace[n - 1], trace[(n - 1) + 1], migrations[n - 1], start, faults, c);
      assert migrations[n - 1..][0] == migrations[n - 1] && migrations[n - 1..][1..] == migrations[n..];
    }
  }

  /** A loop that breaks, or runs out of files, has the outcome it stands at. */
  lemma {:induction false} TraceEnds(so: Outcome, migrations: seq<Migration>, start: int, faults: Faults, c: Setting,
                  trace: seq<Outcome>, r: Outcome)
    requires IsTrace(so, migrations, start, faults, c, trace)
    requires if |trace| == |migrations| + 1 then r == trace[|trace| - 1]
             else Broke(trace[|trace| - 1], r, migrations[|trace| - 1], start, faults, c)
    ensures Loop(so, migrations, start, faults, c) == r
  {
    var n := |trace| - 1;
    TraceIsTheLoop(so, migrations, start, faults, c, trace, n);
    if n < |migrations| {
      assert migrations[n..][0] == migrations[n];
    }
  }

  // ---- What a run amounts to ----

  function Newer(migrations: seq<Migration>, start: int): seq<Migration> {
    if migrations == [] then []
    else if migrations[0].version > start then [migrations[0]] + Newer(migrations[1..], start)
    else Newer(migrations[1..], start)
  }

  lemma {:induction false} NewerMembers(migrations: seq<Migration>, start: int)
    ensures forall m :: m in Newer(migrations, start) <==> m in migrations && m.version > start
  {
    if migrations != [] {
      NewerMembers(migrations[1..], start);
      assert migrations == [migrations[0]] + migrations[1..];
    }
  }

  /** A file goes in unless it cannot be read, names an unknown placeholder, or one of its steps raises. */
  predicate GoesIn(m: Migration, faults: Faults, c: Setting) {
    var statements := c.read(m);
    statements.Some? && (m.version in faults ==> faults[m.version] > |statements.value| + 1)
  }

  /** The files up to the first that does not go in. */
  function Going(ms: seq<Migration>, faults: Faults, c: Setting): seq<Migration> {
    if ms == [] || !GoesIn(ms[0], faults, c) then [] else [ms[0]] + Going(ms[1..], faults, c)
  }

  lemma {:induction false} GoingIsAPrefix(ms: seq<Migration>, faults: Faults, c: Setting)
    ensures var r := Going(ms, faults, c);
            && |r| <= |ms| && r == ms[..|r|]
            && (|r| < |ms| ==> !GoesIn(ms[|r|], faults, c))
            && forall m | m in r :: GoesIn(m, faults, c)
  {
    if ms != [] && GoesIn(ms[0], faults, c) {
      GoingIsAPrefix(ms[1..], faults, c);
    }
  }

  /** The database after these files, each recorded and run whole. */
  function Grown(db: Db, ms: seq<Migration>, c: Setting): Db
    requires forall m | m in ms :: c.read(m).Some?
    decreases |ms|
  {
    if ms == [] then db else
    assert ms[0] in ms;
    assert forall m | m in ms[1..] :: m in ms;
    Grown(Db(db.history + [ms[0].version], db.effects + c.read(ms[0]).value), ms[1..], c)
  }

  /** What the loop still has ahead is newer than everything recorded. */
  ghost predicate Ahead(db: Db, migrations: seq<Migration>, start: int) {
    forall m, v | m in migrations && m.version > start && v in db.history :: v < m.version
  }

  /** A run from so that applied exactly going, out of newer. */
  ghost predicate Amounts(so: Outcome, r: Outcome, going: seq<Migration>, newer: seq<Migration>,
                          c: Setting)
  {
    && (forall m | m in going :: c.read(m).Some?)
    && r.db == Grown(so.db, going, c)
    && (r.success <==> |going| == |newer|)
    && r.applied == so.applied + |going|
    && r.currentVersion == if going == [] then so.currentVersion else going[|going| - 1].version
  }

  lemma AheadOfRest(db: Db, migrations: seq<Migration>, start: int)
    requires migrations != [] && StrictlyAscending(migrations) && Ahead(db, migrations, start)
    ensures StrictlyAscending(migrations[1..]) && Ahead(db, migrations[1..], start)
    ensures migrations[0].version > start ==>
              migrations[0].version !in db.history
              && forall effects :: Ahead(Db(db.history + [migrations[0].version], effects), migrations[1..], start)
  {
    var rest := migrations[1..];
    assert migrations[0] in migrations;
    forall m | m in rest ensures m in migrations && m.version > migrations[0].version {
      var k :| 0 <= k < |rest| && rest[k] == m;
      assert migrations[k + 1] == m;
    }
  }

  lemma LoopSkips(so: Outcome, migrations: seq<Migration>, start: int, faults: Faults, c: Setting)
    requires migrations != [] && migrations[0].version <= start
    ensures Loop(so, migrations, start, faults, c) == Loop(so, migrations[1..], start, faults, c)
    ensures Newer(migrations, start) == Newer(migrations[1..], start)
  {
  }

  lemma LoopStops(so: Outcome, migrations: seq<Migration>, start: int, faults: Faults, c: Setting)
    requires migrations != [] && migrations[0].version > start && !GoesIn(migrations[0], faults, c)
    requires c.rollsBack
    ensures Loop(so, migrations, start, faults, c) == so.(success := false)
    ensures Newer(migrations, start) != [] && Newer(migrations, start)[0] == migrations[0]
    ensures Going(Newer(migrations, start), faults, c) == []
  {
  }

  lemma LoopApplies(so: Outcome, migrations: seq<Migration>, start: int, faults: Faults, c: Setting)
    requires migrations != [] && migrations[0].version > start && GoesIn(migrations[0], faults, c)
    requires migrations[0].version !in so.db.history
    ensures var next := NextAfter(so, migrations[0], c.read(migrations[0]).value);
            Loop(so, migrations, start, faults, c) == Loop(next, migrations[1..], start, faults, c)
    ensures Newer(migrations, start) == [migrations[0]] + Newer(migrations[1..], start)
    ensures Going(Newer(migrations, start), faults, c)
         == [migrations[0]] + Going(Newer(migrations[1..], start), faults, c)
  {
    var newer := Newer(migrations, start);
    assert newer[1..] == Newer(migrations[1..], start);
  }

  lemma {:induction false} LoopAppliesGoing(so: Outcome, migrations: seq<Migration>, start: int, faults: Faults,
                                            c: Setting)
    requires StrictlyAscending(migrations) && Ahead(so.db, migrations, start) && c.rollsBack && so.success
    ensures var newer := Newer(migrations, start);
            Amounts(so, Loop(so, migrations, start, faults, c), Going(newer, faults, c), newer, c)
    decreases |migrations|
  {
    if migrations != [] {
      var m, rest := migrations[0], migrations[1..];
      AheadOfRest(so.db, migrations, start);
      if m.version <= start {
        LoopSkips(so, migrations, start, faults, c);
        LoopAppliesGoing(so, rest, start, faults, c);
      } else if !GoesIn(m, faults, c) {
        LoopStops(so, migrations, start, faults, c);
      } else {
        LoopApplies(so, migrations, start, faults, c);
        var next, newer := NextAfter(so, m, c.read(m).value), Newer(rest, start);
        LoopAppliesGoing(next, rest, start, faults, c);
      }
    }
  }

  // ---- Main results ----

  /** With distinct versions on a driver that rolls back, a run applies an ascending prefix of the files newer
      than the database, records exactly those, runs exactly their statements, and reports how far it came. */
  lemma RunAppliesAnAscendingPrefix(db: Db, files: seq<Migration>, faults: Faults, c: Setting)
    requires Distinct(files) && c.rollsBack
    ensures var start := MaxVersion(db.history);
            var newer := Newer(Sorted(files), start);
            var going := Going(newer, faults, c);
            && StrictlyAscending(newer) && (forall m :: m in newer <==> m in files && m.version > start)
            && |going| <= |newer| && going == newer[..|going|]
            && (|going| < |newer| ==> !GoesIn(newer[|going|], faults, c))
            && Amounts(Outcome(db, true, 0, start), Run(db, files, faults, c), going, newer, c)
  {
    var start := MaxVersion(db.history);
    SortedIsStrict(files);
    SortedIsAscending(files);
    NewerIsStrict(Sorted(files), start);
    NewerMembers(Sorted(files), start);
    GoingIsAPrefix(Newer(Sorted(files), start), faults, c);
    LoopAppliesGoing(Outcome(db, true, 0, start), Sorted(files), start, faults, c);
  }

  lemma {:induction false} NewerIsStrict(migrations: seq<Migration>, start: int)
    requires StrictlyAscending(migrations)
    ensures StrictlyAscending(Newer(migrations, start))
  {
    if migrations != [] {
      var rest := migrations[1..];
      NewerIsStrict(rest, start);
      NewerMembers(rest, start);
      forall m | m in rest ensures m.version > migrations[0].version {
        var k :| 0 <= k < |rest| && rest[k] == m;
        assert migrations[k + 1] == m;
      }
    }
  }

  lemma {:induction false} GrownJoins(db: Db, a: seq<Migration>, b: seq<Migration>, c: Setting)
    requires forall m | m in a || m in b :: c.read(m).Some?
    requires forall m | m in a + b :: c.read(m).Some?
    ensures Grown(db, a + b, c) == Grown(Grown(db, a, c), b, c)
    decreases |a|
  {
    if a == [] {
      assert a + b == b;
    } else {
      assert a[0] in a && (a + b)[1..] == a[1..] + b;
      var next := Db(db.history + [a[0].version], db.effects + c.read(a[0]).value);
      forall m | m in a[1..] + b ensures c.read(m).Some? {
        assert m in a[1..] || m in b;
      }
      GrownJoins(next, a[1..], b, c);
    }
  }

  /** A clean run goes on where a failed one stopped. */
  lemma {:induction false} CleanGoesOn(ms: seq<Migration>, faults: Faults, c: Setting)
    ensures var going := Going(ms, faults, c);
            |going| <= |ms| && Going(ms, map[], c) == going + Going(ms[|going|..], map[], c)
  {
    if ms == [] || !GoesIn(ms[0], faults, c) {
      assert ms[0..] == ms;
    } else {
      var rest := ms[1..];
      CleanGoesOn(rest, faults, c);
      var going := Going(rest, faults, c);
      assert Going(ms, faults, c) == [ms[0]] + going;
      assert Going(ms, map[], c) == [ms[0]] + Going(rest, map[], c);
      assert rest[|going|..] == ms[|going| + 1..];
    }
  }

  lemma {:induction false} GrownMax(db: Db, ms: seq<Migration>, c: Setting)
    requires StrictlyAscending(ms) && forall m | m in ms :: c.read(m).Some?
    requires forall m | m in ms :: m.version > MaxVersion(db.history)
    ensures MaxVersion(Grown(db, ms, c).history)
         == if ms == [] then MaxVersion(db.history) else ms[|ms| - 1].version
    decreases |ms|
  {
    if ms != [] {
      var m, rest := ms[0], ms[1..];
      assert m in ms;
      var next := Db(db.history + [m.version], db.effects + c.read(m).value);
      assert MaxVersion(next.history) == m.version by {
        assert m.version in next.history;
      }
      forall x | x in rest ensures x in ms && x.version > m.version {
        var k :| 0 <= k < |rest| && rest[k] == x;
        assert ms[k + 1] == x;
      }
      GrownMax(next, rest, c);
    }
  }

  lemma {:induction false} NewerTwice(migrations: seq<Migration>, start: int, later: int)
    requires start <= later
    ensures Newer(migrations, later) == Newer(Newer(migrations, start), later)
  {
    if migrations != [] {
      NewerTwice(migrations[1..], start, later);
      assert migrations[0].version > start ==> Newer(migrations, start)[1..] == Newer(migrations[1..], start);
    }
  }

  lemma {:induction false} NewerIsTheRest(ms: seq<Migration>, n: nat, version: int)
    requires StrictlyAscending(ms) && n <= |ms|
    requires forall i | 0 <= i < n :: ms[i].version <= version
    requires forall i | n <= i < |ms| :: ms[i].version > version
    ensures Newer(ms, version) == ms[n..]
  {
    if ms != [] {
      NewerIsTheRest(ms[1..], if n == 0 then 0 else n - 1, version);
      assert n > 0 ==> ms[1..][n - 1..] == ms[n..];
      assert n == 0 ==> ms[n..] == [ms[0]] + ms[1..] && ms[1..][0..] == ms[1..];
    }
  }

  lemma NewerSplitsAt(newer: seq<Migration>, start: int, n: nat, version: int)
    requires StrictlyAscending(newer) && n <= |newer| && forall m | m in newer :: m.version > start
    requires version == if n == 0 then start else newer[n - 1].version
    ensures start <= version
    ensures forall i | 0 <= i < |newer| :: newer[i].version <= version <==> i < n
  {
    forall i | 0 <= i < |newer| ensures newer[i].version <= version <==> i < n {
      assert newer[i] in newer;
      assert i < n - 1 ==> newer[i].version < newer[n - 1].version;
      assert 0 < n <= i ==> newer[n - 1].version < newer[i].version;
    }
    if n > 0 {
      assert newer[n - 1] in newer;
    }
  }

  /** After a run that applied the first n newer files, the newer files are the others. */
  lemma NewerAfter(files: seq<Migration>, start: int, n: nat, version: int)
    requires StrictlyAscending(Newer(files, start)) && n <= |Newer(files, start)|
    requires version == if n == 0 then start else Newer(files, start)[n - 1].version
    ensures Newer(files, version) == Newer(files, start)[n..]
  {
    var newer := Newer(files, start);
    NewerMembers(files, start);
    NewerSplitsAt(newer, start, n, version);
    NewerTwice(files, start, version);
    NewerIsTheRest(newer, n, version);
  }

  /** A run that fails at any point, then a clean run, reach the database one clean run reaches. */
  lemma RerunReachesTheCleanRun(db: Db, files: seq<Migration>, faults: Faults, c: Setting)
    requires Distinct(files) && c.rollsBack
    ensures Run(Run(db, files, faults, c).db, files, map[], c).db == Run(db, files, map[], c).db
  {
    var start, migrations := MaxVersion(db.history), Sorted(files);
    var newer := Newer(migrations, start);
    var going := Going(newer, faults, c);
    FaultyRunLeaves(db, files, faults, c);
    RunAppliesAnAscendingPrefix(db, files, map[], c);
    RunAppliesAnAscendingPrefix(Grown(db, going, c), files, map[], c);
    CleanGoesOn(newer, faults, c);
    GrownJoins(db, going, Going(newer[|going|..], map[], c), c);
  }

  /** What a run leaves, and which files are newer than that. */
  lemma FaultyRunLeaves(db: Db, files: seq<Migration>, faults: Faults, c: Setting)
    requires Distinct(files) && c.rollsBack
    ensures var migrations := Sorted(files);
            var newer := Newer(migrations, MaxVersion(db.history));
            var going := Going(newer, faults, c);
            && (forall m | m in going :: c.read(m).Some?) && |going| <= |newer|
            && Run(db, files, faults, c).db == Grown(db, going, c)
            && Newer(migrations, MaxVersion(Grown(db, going, c).history)) == newer[|going|..]
  {
    RunAppliesAnAscendingPrefix(db, files, faults, c);
    var newer := Newer(Sorted(files), MaxVersion(db.history));
    GrownLeaves(db, Sorted(files), |Going(newer, faults, c)|, c);
  }

  /** Once the first n newer files are in, the newer ones are the others. */
  lemma GrownLeaves(db: Db, migrations: seq<Migration>, n: nat, c: Setting)
    requires StrictlyAscending(Newer(migrations, MaxVersion(db.history)))
    requires n <= |Newer(migrations, MaxVersion(db.history))|
    requires forall m | m in Newer(migrations, MaxVersion(db.history))[..n] :: c.read(m).Some?
    ensures var newer := Newer(migrations, MaxVersion(db.history));
            Newer(migrations, MaxVersion(Grown(db, newer[..n], c).history)) == newer[n..]
  {
    var start := MaxVersion(db.history);
    var newer := Newer(migrations, start);
    NewerMembers(migrations, start);
    GoingIsNewer(newer, newer[..n], start);
    GrownMax(db, newer[..n], c);
    NewerAfter(migrations, start, n, if n == 0 then start else newer[n - 1].version);
  }

  lemma GoingIsNewer(newer: seq<Migration>, going: seq<Migration>, start: int)
    requires StrictlyAscending(newer) && forall m | m in newer :: m.version > start
    requires |going| <= |newer| && going == newer[..|going|]
    ensures StrictlyAscending(going) && forall m | m in going :: m.version > start
  {
    forall m | m in going ensures m in newer {
    }
  }

  /** Any number of runs, each failing where it will. */
  function Runs(db: Db, files: seq<Migration>, plans: seq<Faults>, c: Setting): Db {
    if plans == [] then db
    else Run(Runs(db, files, plans[..|plans| - 1], c), files, plans[|plans| - 1], c).db
  }

  /** However many runs fail and wherever they do, the next clean run ends where one clean run would have. */
  lemma {:induction false} FailedRunsCostNothing(db: Db, files: seq<Migration>, plans: seq<Faults>,
                                                 c: Setting)
    requires Distinct(files) && c.rollsBack
    ensures Run(Runs(db, files, plans, c), files, map[], c).db == Run(db, files, map[], c).db
  {
    if plans != [] {
      var before := plans[..|plans| - 1];
      RerunReachesTheCleanRun(Runs(db, files, before, c), files, plans[|plans| - 1], c);
      FailedRunsCostNothing(db, files, before, c);
    }
  }

  // ---- What a run does not do ----

  lemma {:induction false} LoopRecordsOnlyNewer(so: Outcome, migrations: seq<Migration>, start: int, faults: Faults,
                                                c: Setting)
    ensures var r := Loop(so, migrations, start, faults, c);
            && so.db.history <= r.db.history
            && forall v | v in r.db.history && v !in so.db.history :: v > start
    decreases |migrations|
  {
    if migrations != [] {
      var m := migrations[0];
      if m.version <= start {
        LoopRecordsOnlyNewer(so, migrations[1..], start, faults, c);
      } else if c.read(m).Some? && Commits(so.db, m, c.read(m).value, faults) {
        LoopRecordsOnlyNewer(NextAfter(so, m, c.read(m).value), migrations[1..], start, faults, c);
      }
    }
  }

  /** A version at or below the highest recorded one, and on an empty history one at or below zero, is never
      applied by any run: a file that arrives late is passed over for good. */
  lemma {:induction false} LateVersionIsNeverApplied(db: Db, files: seq<Migration>, plans: seq<Faults>,
                                                     c: Setting, version: int)
    requires version !in db.history && version <= MaxVersion(db.history)
    ensures var after := Runs(db, files, plans, c);
            version !in after.history && version <= MaxVersion(after.history)
  {
    if plans != [] {
      var before := Runs(db, files, plans[..|plans| - 1], c);
      LateVersionIsNeverApplied(db, files, plans[..|plans| - 1], c, version);
      var start := MaxVersion(before.history);
      LoopRecordsOnlyNewer(Outcome(before, true, 0, start), Sorted(files), start, plans[|plans| - 1], c);
      var after := Runs(db, files, plans, c);
      if after.history != before.history {
        assert after.history[|before.history|] in after.history;
        NewHistoryIsHigher(before.history, after.history);
      }
    }
  }

  lemma NewHistoryIsHigher(before: seq<int>, after: seq<int>)
    requires before <= after && after != []
    requires forall v | v in after && v !in before :: v > MaxVersion(before)
    ensures MaxVersion(after) >= MaxVersion(before)
  {
    assert MaxVersion(after) in after;
    if before != [] {
      var i :| 0 <= i < |before| && before[i] == MaxVersion(before);
      assert after[i] == before[i];
      assert MaxVersion(before) in after;
    }
  }

  // ---- Files that share a version ----

  /** How many files have the version. */
  function Copies(files: seq<Migration>, version: int): nat {
    if files == [] then 0 else (if files[0].version == version then 1 else 0) + Copies(files[1..], version)
  }

  lemma {:induction false} CopiesOfOneMore(files: seq<Migration>, m: Migration, version: int)
    ensures Copies(files + [m], version) == Copies(files, version) + if m.version == version then 1 else 0
  {
    if files == [] {
      assert [m][1..] == [];
    } else {
      CopiesOfOneMore(files[1..], m, version);
      assert (files + [m])[1..] == files[1..] + [m];
    }
  }

  lemma {:induction false} InsertKeepsCopies(m: Migration, sorted: seq<Migration>, version: int)
    ensures Copies(Insert(m, sorted), version) == Copies(sorted, version) + if m.version == version then 1 else 0
  {
    if sorted == [] || m.version < sorted[0].version {
      assert ([m] + sorted)[1..] == sorted;
    } else {
      InsertKeepsCopies(m, sorted[1..], version);
      assert ([sorted[0]] + Insert(m, sorted[1..]))[1..] == Insert(m, sorted[1..]);
    }
  }

  lemma {:induction false} SortedKeepsCopies(files: seq<Migration>, version: int)
    ensures Copies(Sorted(files), version) == Copies(files, version)
  {
    if files != [] {
      var front, last := files[..|files| - 1], files[|files| - 1];
      SortedKeepsCopies(front, version);
      InsertKeepsCopies(last, Sorted(front), version);
      CopiesOfOneMore(front, last, version);
      assert files == front + [last];
    }
  }

  lemma {:induction false} NoCopies(files: seq<Migration>, version: int)
    ensures Copies(files, version) == 0 <==> forall m | m in files :: m.version != version
  {
    if files != [] {
      NoCopies(files[1..], version);
      assert files == [files[0]] + files[1..];
    }
  }

  /** No version newer than start has two files. */
  ghost predicate AtMostOne(files: seq<Migration>, start: int) {
    forall v | v > start :: Copies(files, v) <= 1
  }

  lemma AtMostOneWithHead(files: seq<Migration>, start: int)
    requires files != []
    ensures AtMostOne(files, start)
       <==> AtMostOne(files[1..], start) && (files[0].version > start ==> Copies(files[1..], files[0].version) == 0)
  {
    var m, rest := files[0], files[1..];
    if AtMostOne(files, start) {
      forall v | v > start ensures Copies(rest, v) <= 1 {
        assert Copies(files, v) <= 1;
      }
      assert m.version > start ==> Copies(files, m.version) <= 1;
    } else {
      var v :| v > start && Copies(files, v) > 1;
      assert v == m.version || Copies(rest, v) > 1;
    }
  }

  /** Of an ascending list, the newer files strictly ascend exactly when none of their versions has two. */
  lemma {:induction false} StrictWithoutCopies(migrations: seq<Migration>, start: int)
    requires Ascending(migrations)
    ensures StrictlyAscending(Newer(migrations, start)) <==> AtMostOne(migrations, start)
  {
    if migrations != [] {
      var m, rest := migrations[0], migrations[1..];
      StrictWithoutCopies(rest, start);
      AtMostOneWithHead(migrations, start);
      if m.version > start {
        assert [m] + rest == migrations;
        HeadIsStrict(m, rest, start);
      }
    }
  }

  lemma RestIsNoOlder(m: Migration, rest: seq<Migration>)
    requires Ascending([m] + rest)
    ensures Ascending(rest) && forall x | x in rest :: m.version <= x.version
  {
    var all := [m] + rest;
    forall i, j | 0 <= i < j < |rest| ensures rest[i].version <= rest[j].version {
      assert all[i + 1] == rest[i] && all[j + 1] == rest[j];
    }
    forall x | x in rest ensures m.version <= x.version {
      var k :| 0 <= k < |rest| && rest[k] == x;
      assert all[k + 1] == x && all[0] == m;
    }
  }

  lemma StrictFromHead(m: Migration, newer: seq<Migration>)
    ensures StrictlyAscending([m] + newer)
       <==> StrictlyAscending(newer) && forall x | x in newer :: m.version < x.version
  {
    var all := [m] + newer;
    if StrictlyAscending(all) {
      forall i, j | 0 <= i < j < |newer| ensures newer[i].version < newer[j].version {
        assert all[i + 1] == newer[i] && all[j + 1] == newer[j];
      }
      forall x | x in newer ensures m.version < x.version {
        var k :| 0 <= k < |newer| && newer[k] == x;
        assert all[k + 1] == x && all[0] == m;
      }
    }
    if StrictlyAscending(newer) && forall x | x in newer :: m.version < x.version {
      forall i, j | 0 <= i < j < |all| ensures all[i].version < all[j].version {
        assert newer[j - 1] in newer;
        assert i > 0 ==> newer[i - 1].version < newer[j - 1].version;
      }
    }
  }

  lemma HeadIsStrict(m: Migration, rest: seq<Migration>, start: int)
    requires Ascending([m] + rest) && m.version > start
    ensures StrictlyAscending([m] + Newer(rest, start))
       <==> StrictlyAscending(Newer(rest, start)) && Copies(rest, m.version) == 0
  {
    var newer := Newer(rest, start);
    NewerMembers(rest, start);
    RestIsNoOlder(m, rest);
    NoCopies(rest, m.version);
    StrictFromHead(m, newer);
    forall x | x in rest ensures x in newer {
    }
  }

  /** What makes a loop with these files ahead succeed: each goes in, and none has a version that is taken. */
  ghost predicate CanSucceed(history: seq<int>, newer: seq<Migration>, faults: Faults, c: Setting) {
    && (forall m | m in newer :: GoesIn(m, faults, c)) && StrictlyAscending(newer)
    && (newer != [] ==> newer[0].version !in history)
  }

  /** Nothing recorded is past a file still to come. */
  ghost predicate NotPast(history: seq<int>, migrations: seq<Migration>, start: int) {
    forall m | m in migrations && m.version > start :: NoneAbove(history, m.version)
  }

  ghost predicate NoneAbove(history: seq<int>, version: int) {
    forall v | v in history :: v <= version
  }

  lemma NotPastRest(history: seq<int>, m: Migration, rest: seq<Migration>, start: int)
    requires NotPast(history, [m] + rest, start) && forall x | x in rest :: m.version <= x.version
    ensures NotPast(history, rest, start) && NotPast(history + [m.version], rest, start)
    ensures m.version > start ==> NoneAbove(history, m.version)
  {
    var all := [m] + rest;
    assert m in all;
    forall x | x in rest && x.version > start
      ensures NoneAbove(history, x.version) && NoneAbove(history + [m.version], x.version)
    {
      assert x in all;
    }
  }

  lemma LoopFailsAt(so: Outcome, migrations: seq<Migration>, start: int, faults: Faults, c: Setting)
    requires migrations != [] && migrations[0].version > start
    requires !GoesIn(migrations[0], faults, c) || migrations[0].version in so.db.history
    ensures !Loop(so, migrations, start, faults, c).success
    ensures !CanSucceed(so.db.history, Newer(migrations, start), faults, c)
  {
    var newer := Newer(migrations, start);
    assert newer[0] == migrations[0] && newer[0] in newer;
  }

  lemma {:induction false} LoopSucceedsExactlyWhen(so: Outcome, migrations: seq<Migration>, start: int, faults: Faults,
                                                   c: Setting)
    requires Ascending(migrations) && so.success && NotPast(so.db.history, migrations, start)
    ensures Loop(so, migrations, start, faults, c).success
       <==> CanSucceed(so.db.history, Newer(migrations, start), faults, c)
    decreases |migrations|
  {
    if migrations != [] {
      var m, rest := migrations[0], migrations[1..];
      assert migrations == [m] + rest;
      RestIsNoOlder(m, rest);
      NotPastRest(so.db.history, m, rest, start);
      if m.version <= start {
        LoopSkips(so, migrations, start, faults, c);
        LoopSucceedsExactlyWhen(so, rest, start, faults, c);
      } else if !GoesIn(m, faults, c) || m.version in so.db.history {
        LoopFailsAt(so, migrations, start, faults, c);
      } else {
        LoopApplies(so, migrations, start, faults, c);
        LoopSucceedsExactlyWhen(NextAfter(so, m, c.read(m).value), rest, start, faults, c);
        NewerMembers(rest, start);
        TurnCanSucceed(so.db.history, m, Newer(rest, start), faults, c);
      }
    }
  }

  /** Once a file is in, the head of the others is free exactly when it does not share the version. */
  lemma TurnCanSucceed(history: seq<int>, m: Migration, later: seq<Migration>, faults: Faults, c: Setting)
    requires GoesIn(m, faults, c) && m.version !in history && NoneAbove(history, m.version)
    requires forall x | x in later :: m.version <= x.version
    ensures CanSucceed(history, [m] + later, faults, c) <==> CanSucceed(history + [m.version], later, faults, c)
  {
    var all := [m] + later;
    StrictFromHead(m, later);
    assert forall x :: x in all <==> x == m || x in later;
    if later != [] && StrictlyAscending(later) && later[0].version != m.version {
      assert later[0] in later;
      forall x | x in later ensures m.version < x.version {
        var k :| 0 <= k < |later| && later[k] == x;
        assert k > 0 ==> later[0].version < later[k].version;
      }
    }
  }

  /** For any directory and any faults: a run reports success exactly when every file newer than the database goes
      in and no two of them share a version. */
  lemma RunSucceedsExactlyWhen(db: Db, files: seq<Migration>, faults: Faults, c: Setting)
    ensures var start := MaxVersion(db.history);
            Run(db, files, faults, c).success
            <==> (forall m | m in files && m.version > start :: GoesIn(m, faults, c)) && AtMostOne(files, start)
  {
    var start, migrations := MaxVersion(db.history), Sorted(files);
    SortedIsAscending(files);
    assert NotPast(db.history, migrations, start);
    LoopSucceedsExactlyWhen(Outcome(db, true, 0, start), migrations, start, faults, c);
    NewerAreFree(db.history, migrations);
    NewerOfSorted(files, start);
    StrictWithoutCopies(migrations, start);
    SameCopies(files, start);
  }

  lemma NewerAreFree(history: seq<int>, migrations: seq<Migration>)
    ensures var newer := Newer(migrations, MaxVersion(history));
            newer != [] ==> newer[0].version !in history
  {
    var newer := Newer(migrations, MaxVersion(history));
    NewerMembers(migrations, MaxVersion(history));
    if newer != [] {
      assert newer[0] in newer;
    }
  }

  lemma NewerOfSorted(files: seq<Migration>, start: int)
    ensures forall m :: m in Newer(Sorted(files), start) <==> m in files && m.version > start
  {
    SortedIsAscending(files);
    NewerMembers(Sorted(files), start);
  }

  lemma SameCopies(files: seq<Migration>, start: int)
    ensures AtMostOne(Sorted(files), start) <==> AtMostOne(files, start)
  {
    forall v ensures Copies(Sorted(files), v) == Copies(files, v) {
      SortedKeepsCopies(files, v);
    }
  }

  /** Two files with one version: a clean run applies one of them and fails, and the next reports success with the
      other never applied. */
  lemma TwinVersionIsDroppedSilently(db: Db, a: Migration, b: Migration, c: Setting)
    requires a.version == b.version > MaxVersion(db.history) && c.rollsBack
    requires c.read(a).Some? && c.read(b).Some?
    ensures var first := Run(db, [a, b], map[], c);
            var second := Run(first.db, [a, b], map[], c);
            && !first.success && first.db == Db(db.history + [a.version], db.effects + c.read(a).value)
            && second.success && second.applied == 0 && second.db == first.db
  {
    var start, after := MaxVersion(db.history), Db(db.history + [a.version], db.effects + c.read(a).value);
    TwinsInOrder(a, b);
    assert [a, b][1..] == [b] && [b][1..] == [];
    var so := Outcome(db, true, 0, start);
    var next := NextAfter(so, a, c.read(a).value);
    assert a.version in after.history && MaxVersion(after.history) == a.version;
    assert Loop(so, [a, b], start, map[], c) == Loop(next, [b], start, map[], c);
    assert Loop(next, [b], start, map[], c) == next.(success := false);
    var again := Outcome(after, true, 0, a.version);
    assert Loop(again, [a, b], a.version, map[], c) == Loop(again, [b], a.version, map[], c) == again by {
      assert Loop(again, [], a.version, map[], c) == again;
    }
  }

  lemma TwinsInOrder(a: Migration, b: Migration)
    requires a.version == b.version
    ensures Sorted([a, b]) == [a, b]
  {
    assert [a, b][..1] == [a] && [a][..0] == [];
    assert Sorted([]) == [] && Sorted([a]) == [a];
    assert Insert(b, [a]) == [a] + Insert(b, []);
  }

  // ---- Without a rollback ----

  function Rolling(c: Setting): Setting {
    c.(rollsBack := true)
  }

  function Plus(db: Db, effects: seq<string>): Db {
    db.(effects := db.effects + effects)
  }

  /** What the file that ends a run had run by then, where nothing is rolled back. */
  function LeftBehind(newer: seq<Migration>, faults: Faults, c: Setting): seq<string> {
    if newer == [] then []
    else if GoesIn(newer[0], faults, c) then LeftBehind(newer[1..], faults, c)
    else if c.read(newer[0]).None? || newer[0].version !in faults then []
    else StepsBefore(c.read(newer[0]).value, faults[newer[0].version])
  }

  lemma {:induction false} CleanLeavesNothing(newer: seq<Migration>, c: Setting)
    ensures LeftBehind(newer, map[], c) == []
  {
    if newer != [] {
      CleanLeavesNothing(newer[1..], c);
    }
  }

  /** What is left behind is all that a rollback changes. */
  lemma {:induction false} LoopLeaves(so: Outcome, migrations: seq<Migration>, start: int, faults: Faults, c: Setting)
    requires StrictlyAscending(migrations) && Ahead(so.db, migrations, start) && !c.rollsBack
    ensures var kept := Loop(so, migrations, start, faults, Rolling(c));
            Loop(so, migrations, start, faults, c)
            == kept.(db := Plus(kept.db, LeftBehind(Newer(migrations, start), faults, c)))
    decreases |migrations|
  {
    if migrations == [] {
      assert Plus(so.db, []) == so.db;
    } else {
      var m, rest, newer := migrations[0], migrations[1..], Newer(migrations, start);
      AheadOfRest(so.db, migrations, start);
      if m.version <= start {
        LoopLeaves(so, rest, start, faults, c);
      } else if !GoesIn(m, faults, c) {
        assert newer[0] == m;
        assert Plus(so.db, []) == so.db;
      } else {
        assert newer == [m] + Newer(rest, start) && newer[1..] == Newer(rest, start);
        LoopLeaves(NextAfter(so, m, c.read(m).value), rest, start, faults, c);
      }
    }
  }

  function Bare(so: Outcome): Outcome {
    so.(db := Db(so.db.history, []))
  }

  /** The loop only adds to what had been run, and never looks at it. */
  lemma {:induction false} LoopAddsOn(so: Outcome, migrations: seq<Migration>, start: int, faults: Faults, c: Setting)
    requires c.rollsBack
    ensures var bare := Loop(Bare(so), migrations, start, faults, c);
            Loop(so, migrations, start, faults, c) == bare.(db := Db(bare.db.history, so.db.effects + bare.db.effects))
    decreases |migrations|
  {
    if migrations == [] {
      assert so.db.effects + [] == so.db.effects;
    } else {
      var m, rest := migrations[0], migrations[1..];
      if m.version <= start {
        LoopAddsOn(so, rest, start, faults, c);
      } else if c.read(m).Some? && Commits(so.db, m, c.read(m).value, faults) {
        var statements := c.read(m).value;
        var next, other := NextAfter(so, m, statements), NextAfter(Bare(so), m, statements);
        LoopAddsOn(next, rest, start, faults, c);
        LoopAddsOn(other, rest, start, faults, c);
        assert Bare(other) == Bare(next);
        var added := Loop(Bare(next), rest, start, faults, c).db.effects;
        assert so.db.effects + statements + added == so.db.effects + ([] + statements + added);
      } else {
        assert so.db.effects + [] == so.db.effects;
      }
    }
  }

  /** Without a rollback, a failed run and then a clean one reach what one clean run reaches exactly when the file
      that failed had run none of its statements: it was unreadable, or raised before the first one. */
  lemma WithoutRollbackRerunIsCleanExactlyWhen(db: Db, files: seq<Migration>, faults: Faults, c: Setting)
    requires Distinct(files) && !c.rollsBack
    ensures Run(Run(db, files, faults, c).db, files, map[], c).db == Run(db, files, map[], c).db
        <==> LeftBehind(Newer(Sorted(files), MaxVersion(db.history)), faults, c) == []
  {
    SortedIsStrict(files);
    var left := LeftBehind(Newer(Sorted(files), MaxVersion(db.history)), faults, c);
    var rolled := Run(db, files, faults, Rolling(c)).db;
    RunLeaves(db, files, faults, c);
    RunLeaves(db, files, map[], c);
    RunLeaves(Plus(rolled, left), files, map[], c);
    RerunReachesTheCleanRun(db, files, faults, Rolling(c));
    var start := MaxVersion(rolled.history);
    LoopAddsOn(Outcome(rolled, true, 0, start), Sorted(files), start, map[], Rolling(c));
    LoopAddsOn(Outcome(Plus(rolled, left), true, 0, start), Sorted(files), start, map[], Rolling(c));
    var clean := Run(rolled, files, map[], Rolling(c)).db;
    var dirty := Run(Plus(rolled, left), files, map[], Rolling(c)).db;
    assert |dirty.effects| == |clean.effects| + |left|;
    if left == [] {
      assert Plus(rolled, left) == rolled;
    }
  }

  lemma RunLeaves(db: Db, files: seq<Migration>, faults: Faults, c: Setting)
    requires Distinct(files) && !c.rollsBack
    ensures var start := MaxVersion(db.history);
            Run(db, files, faults, c).db
            == Plus(Run(db, files, faults, Rolling(c)).db, LeftBehind(Newer(Sorted(files), start), faults, c))
    ensures faults == map[] ==> Run(db, files, faults, c).db == Run(db, files, faults, Rolling(c)).db
  {
    var start := MaxVersion(db.history);
    SortedIsStrict(files);
    LoopLeaves(Outcome(db, true, 0, start), Sorted(files), start, faults, c);
    if faults == map[] {
      CleanLeavesNothing(Newer(Sorted(files), start), c);
      var rolled := Run(db, files, faults, Rolling(c)).db;
      assert Plus(rolled, []) == rolled;
    }
  }

  // ---- The whole call ----

  /** What else can go wrong with a call: SQL that raises before the first file, or after the last. */
  datatype Trouble = NoTrouble | Before | After

  predicate IsNameStart(c: char) {
    'a' <= c <= 'z' || 'A' <= c <= 'Z' || c == '_'
  }

  predicate IsTableName(name: string) {
    name != "" && IsNameStart(name[0]) && forall i | 0 <= i < |name| :: IsNameStart(name[i]) || '0' <= name[i] <= '9'
  }

  /** RunMigrations: files is None when there is no directory. SQLite takes no lock, so has none to release. */
  function Call(db: Db, table: string, files: Option<seq<Migration>>, trouble: Trouble, faults: Faults,
                c: Setting, locks: bool): Outcome
  {
    if !IsTableName(table) then Outcome(db, false, 0, 0)
    else if files.None? then Outcome(db, true, 0, 0)
    else if trouble.Before? then Outcome(db, false, 0, 0)
    else if trouble.After? && locks then Outcome(Run(db, files.value, faults, c).db, false, 0, 0)
    else Run(db, files.value, faults, c)
  }

  /** Whatever stops a call, the next clean run reaches what one clean run would have. A call that reports success
      with a directory has applied every newer file; one that reports failure may have applied any of them. */
  lemma AnyCallCanBeRepeated(db: Db, table: string, files: seq<Migration>, trouble: Trouble, faults: Faults,
                             c: Setting, locks: bool)
    requires Distinct(files) && c.rollsBack
    ensures var r := Call(db, table, Some(files), trouble, faults, c, locks);
            var newer := Newer(Sorted(files), MaxVersion(db.history));
            && Run(r.db, files, map[], c).db == Run(db, files, map[], c).db
            && (r.success <==> IsTableName(table) && !trouble.Before? && !(trouble.After? && locks)
                               && forall m | m in newer :: GoesIn(m, faults, c))
            && (r.success ==> r.applied == |newer| && r.db == Run(db, files, map[], c).db)
  {
    RerunReachesTheCleanRun(db, files, faults, c);
    RunAppliesAnAscendingPrefix(db, files, faults, c);
    RunAppliesAnAscendingPrefix(db, files, map[], c);
    var newer := Newer(Sorted(files), MaxVersion(db.history));
    AllGoIn(newer, faults, c);
  }

  lemma {:induction false} AllGoIn(newer: seq<Migration>, faults: Faults, c: Setting)
    ensures |Going(newer, faults, c)| == |newer| <==> forall m | m in newer :: GoesIn(m, faults, c)
    ensures |Going(newer, faults, c)| == |newer| ==> Going(newer, faults, c) == newer == Going(newer, map[], c)
  {
    if newer != [] {
      assert newer == [newer[0]] + newer[1..] && newer[0] in newer;
      GoingIsAPrefix(newer[1..], faults, c);
      AllGoIn(newer[1..], faults, c);
    }
  }

  // ---- What the drivers leave, and what a call reports ----

  /** A file that fails at some step leaves the statements before it on MariaDB, and nothing on the other two. */
  lemma FailedFileLeavesItsStatementsOnMariaDb(db: Db, m: Migration, statements: seq<string>, faults: Faults,
                                               driver: Placeholders.Driver)
    requires m.version in faults && faults[m.version] <= |statements| + 1
    ensures var run := if faults[m.version] <= |statements| then statements[..faults[m.version]] else statements;
            Attempted(db, m, statements, faults, SettingFor(driver))
            == if driver == Placeholders.MariaDb then Db(db.history, db.effects + run) else db
  {
    assert statements[..|statements|] == statements;
  }

  /** A table name is a letter or an underscore, then any of these and digits. */
  lemma TableNameByCharacter(name: string, c: char)
    ensures !IsTableName("")
    ensures var letter := 'a' <= c <= 'z' || 'A' <= c <= 'Z' || c == '_';
            IsTableName(name + [c]) <==> if name == "" then letter else IsTableName(name) && (letter || '0' <= c <= '9')
  {
    var longer := name + [c];
    assert forall i | 0 <= i < |name| :: longer[i] == name[i];
    assert longer[|name|] == c;
  }

  /** A bad table name or trouble before the run touches nothing, and a missing directory is no failure. Losing the
      connection after the migrations went in is one, with nothing reported, though they stay. */
  lemma CallReportsItsTrouble(db: Db, table: string, files: Option<seq<Migration>>, trouble: Trouble,
                              faults: Faults, c: Setting, locks: bool)
    ensures var r := Call(db, table, files, trouble, faults, c, locks);
            && (!IsTableName(table) ==> r == Outcome(db, false, 0, 0))
            && (IsTableName(table) && files.None? ==> r == Outcome(db, true, 0, 0))
            && (IsTableName(table) && files.Some? ==>
                  var run := Run(db, files.value, faults, c);
                  match trouble
                  case Before => r == Outcome(db, false, 0, 0)
                  case After => r == if locks then Outcome(run.db, false, 0, 0) else run
                  case NoTrouble => r == run)
  {
  }
}
