/** The database schema at version 3 and the two registered migrations,
    1 -> 2 and 2 -> 3. A migration is a fixed sequence of SQL statements
    (create `tasks_new`, copy the rows across, drop `tasks`, rename
    `tasks_new` to `tasks`); each statement is a function on the set of
    named tables. Every table is typed by its schema version: a copy fails
    when a table is not of the version the statement expects, whereas
    SQLite itself checks only the columns the statement names. */
module TaskDatabase {

  import opened Wrappers
  import opened Ints
  import opened TaskEntity

  /** `@Database(version = 3)`. */
  const DATABASE_VERSION: int := 3

  const TASKS: string := "tasks"
  const TASKS_NEW: string := "tasks_new"

  /** The column default of `color` in the version 2 and 3 tables, which is
      0xFF673AB7 read as a signed 32-bit number. */
  const MIGRATED_COLOR: Int32 := -10011977

  /** The column default of `category` in version 2. */
  const DEFAULT_CATEGORY: string := "Personal"

  /** A version 1 row: the columns the 1 -> 2 migration reads. */
  datatype RowV1 = RowV1(id: int, title: string, phoneNumber: string, done: bool)

  /** A version 2 row: the version 3 columns plus `category`. */
  datatype RowV2 = RowV2(
    id: int,
    title: string,
    description: string,
    phoneNumber: string,
    category: string,
    priority: int,
    dueDate: Option<Int64>,
    done: bool,
    createdAt: Int64,
    completedAt: Option<Int64>,
    color: Int32
  )

  /** A table holds rows of one schema version; version 3 rows are tasks. */
  datatype Table = TableV1(rows1: seq<RowV1>) | TableV2(rows2: seq<RowV2>) | TableV3(rows3: seq<Task>)

  type Db = map<string, Table>

  datatype SqlError = TableExists(name: string) | NoSuchTable(name: string) | ColumnMismatch | NoMigrationPath(from: int)

  // ---------------------------------------------------------------------
  // Row transforms
  // ---------------------------------------------------------------------

  /** The copy of 1 -> 2: the four old columns, `createdAt` set to the
      migration time, every other column its default. */
  function MigrateRow12(r: RowV1, now: Int64): (s: RowV2)
    ensures s.id == r.id && s.title == r.title && s.phoneNumber == r.phoneNumber && s.done == r.done
    ensures s.description == "" && s.category == DEFAULT_CATEGORY && s.priority == 1
    ensures s.dueDate == None && s.completedAt == None
    ensures s.color == MIGRATED_COLOR && s.createdAt == now
  {
    RowV2(r.id, r.title, "", r.phoneNumber, DEFAULT_CATEGORY, 1, None, r.done, now, None, MIGRATED_COLOR)
  }

  /** The copy of 2 -> 3: every column but `category`, verbatim. */
  function MigrateRow23(r: RowV2): (t: Task)
    ensures t.id == r.id && t.title == r.title && t.description == r.description
    ensures t.phoneNumber == r.phoneNumber && t.priority == r.priority && t.dueDate == r.dueDate
    ensures t.done == r.done && t.createdAt == r.createdAt && t.completedAt == r.completedAt
    ensures t.color == r.color
  {
    Task(r.id, r.title, r.description, r.phoneNumber, r.priority, r.dueDate, r.done, r.createdAt, r.completedAt, r.color)
  }

  /** Adding any category back to a migrated row and migrating again gives
      the same task: `category` is the only column 2 -> 3 loses. */
  lemma OnlyCategoryDropped(r: RowV2, category: string)
    ensures MigrateRow23(r.(category := category)) == MigrateRow23(r)
    ensures MigrateRow23(r) == MigrateRow23(r.(category := DEFAULT_CATEGORY))
  {
  }

  /** A version 1 row carried to version 3: same id, title, phone number
      and completion; empty description, `Medium` priority, no due date, no
      completion time, the migration colour, created at the migration
      time. */
  lemma MigrateRow13(r: RowV1, now: Int64)
    ensures MigrateRow23(MigrateRow12(r, now))
         == Task(r.id, r.title, "", r.phoneNumber, 1, None, r.done, now, None, MIGRATED_COLOR)
  {
  }

  /** Migrated rows do not get the entity's default colour, and a migrated
      done row has no completion time. */
  lemma MigrationQuirks(r: RowV1, now: Int64)
    ensures MigrateRow23(MigrateRow12(r, now)).color != DEFAULT_COLOR
    ensures r.done ==> !CompletionConsistent(MigrateRow23(MigrateRow12(r, now)))
  {
  }

  function MigrateRows12(rows: seq<RowV1>, now: Int64): (r: seq<RowV2>)
    ensures |r| == |rows|
    ensures forall i :: 0 <= i < |rows| ==> r[i] == MigrateRow12(rows[i], now)
  {
    if |rows| == 0 then [] else [MigrateRow12(rows[0], now)] + MigrateRows12(rows[1..], now)
  }

  function MigrateRows23(rows: seq<RowV2>): (r: seq<Task>)
    ensures |r| == |rows|
    ensures forall i :: 0 <= i < |rows| ==> r[i] == MigrateRow23(rows[i])
  {
    if |rows| == 0 then [] else [MigrateRow23(rows[0])] + MigrateRows23(rows[1..])
  }

  /** Every row migrated by one run of 1 -> 2 gets the same creation time. */
  lemma SharedMigrationTime(rows: seq<RowV1>, now: Int64, i: int, j: int)
    requires 0 <= i < |rows| && 0 <= j < |rows|
    ensures MigrateRows12(rows, now)[i].createdAt == MigrateRows12(rows, now)[j].createdAt == now
  {
  }

  // ---------------------------------------------------------------------
  // SQL statements
  // ---------------------------------------------------------------------

  /** `CREATE TABLE name (...)`: fails when the name is taken. */
  function CreateTable(db: Db, name: string, empty: Table): (r: Result<Db, SqlError>)
    ensures r.Success? <==> name !in db
    ensures r.Success? ==> r.value == db[name := empty]
  {
    if name in db then Failure(TableExists(name)) else Success(db[name := empty])
  }

  /** The copy statement of 1 -> 2, `INSERT INTO tasks_new (id, title,
      phoneNumber, done, createdAt) SELECT id, title, phoneNumber, done, now
      FROM tasks`: appends one migrated row per row of `tasks`, in order,
      after the rows `tasks_new` already holds. Fails when a table is
      missing or is not of the schema version the statement expects;
      SQLite itself checks only the named columns. */
  function CopyRows12(db: Db, now: Int64): (r: Result<Db, SqlError>)
    ensures r.Success? <==> TASKS in db && TASKS_NEW in db && db[TASKS].TableV1? && db[TASKS_NEW].TableV2?
    ensures r.Success? ==> r.value.Keys == db.Keys && forall n :: n in db && n != TASKS_NEW ==> r.value[n] == db[n]
    ensures r.Success? ==>
      && r.value[TASKS_NEW].TableV2?
      && var before, copied := db[TASKS_NEW].rows2, r.value[TASKS_NEW].rows2;
      && |copied| == |before| + |db[TASKS].rows1|
      && copied[..|before|] == before
      && forall i :: 0 <= i < |db[TASKS].rows1| ==> copied[|before| + i] == MigrateRow12(db[TASKS].rows1[i], now)
  {
    if TASKS !in db then Failure(NoSuchTable(TASKS))
    else if TASKS_NEW !in db then Failure(NoSuchTable(TASKS_NEW))
    else
      match (db[TASKS], db[TASKS_NEW])
      case (TableV1(source), TableV2(target)) => Success(db[TASKS_NEW := TableV2(target + MigrateRows12(source, now))])
      case _ => Failure(ColumnMismatch)
  }

  /** The copy statement of 2 -> 3, which names every version 3 column:
      appends each row of `tasks` without its `category`, in order, after
      the rows `tasks_new` already holds. Fails when a table is missing or
      is not of the schema version the statement expects; SQLite itself
      checks only the named columns. */
  function CopyRows23(db: Db): (r: Result<Db, SqlError>)
    ensures r.Success? <==> TASKS in db && TASKS_NEW in db && db[TASKS].TableV2? && db[TASKS_NEW].TableV3?
    ensures r.Success? ==> r.value.Keys == db.Keys && forall n :: n in db && n != TASKS_NEW ==> r.value[n] == db[n]
    ensures r.Success? ==>
      && r.value[TASKS_NEW].TableV3?
      && var before, copied := db[TASKS_NEW].rows3, r.value[TASKS_NEW].rows3;
      && |copied| == |before| + |db[TASKS].rows2|
      && copied[..|before|] == before
      && forall i :: 0 <= i < |db[TASKS].rows2| ==> copied[|before| + i] == MigrateRow23(db[TASKS].rows2[i])
  {
    if TASKS !in db then Failure(NoSuchTable(TASKS))
    else if TASKS_NEW !in db then Failure(NoSuchTable(TASKS_NEW))
    else
      match (db[TASKS], db[TASKS_NEW])
      case (TableV2(source), TableV3(target)) => Success(db[TASKS_NEW := TableV3(target + MigrateRows23(source))])
      case _ => Failure(ColumnMismatch)
  }

  /** `DROP TABLE name`. */
  function DropTable(db: Db, name: string): (r: Result<Db, SqlError>)
    ensures r.Success? <==> name in db
    ensures r.Success? ==> r.value.Keys == db.Keys - {name}
    ensures r.Success? ==> forall n :: n in r.value ==> r.value[n] == db[n]
  {
    if name !in db then Failure(NoSuchTable(name)) else Success(db - {name})
  }

  /** `ALTER TABLE from RENAME TO to`. */
  function RenameTable(db: Db, from: string, to: string): (r: Result<Db, SqlError>)
    ensures r.Success? <==> from in db && to !in db
    ensures r.Success? ==> r.value.Keys == db.Keys - {from} + {to} && r.value[to] == db[from]
    ensures r.Success? ==> forall n :: n in db && n != from ==> r.value[n] == db[n]
  {
    if from !in db then Failure(NoSuchTable(from))
    else if to in db then Failure(TableExists(to))
    else Success((db - {from})[to := db[from]])
  }

  // ---------------------------------------------------------------------
  // Migrations
  // ---------------------------------------------------------------------

  /** `MIGRATION_1_2`. It succeeds exactly on a database with a version 1
      `tasks` table and no `tasks_new`; it then replaces `tasks` by its
      migrated rows, in order, and touches no other table. */
  function Migration12(db: Db, now: Int64): (r: Result<Db, SqlError>)
    ensures r.Success? <==> TASKS in db && db[TASKS].TableV1? && TASKS_NEW !in db
    ensures r.Success? ==> r.value == db[TASKS := TableV2(MigrateRows12(db[TASKS].rows1, now))]
  {
    var db1 :- CreateTable(db, TASKS_NEW, TableV2([]));
    var db2 :- CopyRows12(db1, now);
    var dropped := DropTable(db2, TASKS);
    var r := if dropped.Failure? then dropped else RenameTable(dropped.value, TASKS_NEW, TASKS);
    assert r.Success? ==> r.value.Keys == db.Keys;
    assert r.Success? ==> r.value[TASKS].rows2 == [] + MigrateRows12(db[TASKS].rows1, now);
    r
  }

  /** `MIGRATION_2_3`. It succeeds exactly on a database with a version 2
      `tasks` table and no `tasks_new`; it then replaces `tasks` by its rows
      without the `category` column, in order, and touches no other
      table. */
  function Migration23(db: Db): (r: Result<Db, SqlError>)
    ensures r.Success? <==> TASKS in db && db[TASKS].TableV2? && TASKS_NEW !in db
    ensures r.Success? ==> r.value == db[TASKS := TableV3(MigrateRows23(db[TASKS].rows2))]
  {
    var db1 :- CreateTable(db, TASKS_NEW, TableV3([]));
    var db2 :- CopyRows23(db1);
    var dropped := DropTable(db2, TASKS);
    var r := if dropped.Failure? then dropped else RenameTable(dropped.value, TASKS_NEW, TASKS);
    assert r.Success? ==> r.value.Keys == db.Keys;
    assert r.Success? ==> r.value[TASKS].rows3 == [] + MigrateRows23(db[TASKS].rows2);
    r
  }

  /** The two migrations run one after the other, as Room chains them for
      a version 1 database: it succeeds exactly when 1 -> 2 does and then
      holds every old row carried to version 3. */
  function Migration13(db: Db, now: Int64): (r: Result<Db, SqlError>)
    ensures r.Success? <==> TASKS in db && db[TASKS].TableV1? && TASKS_NEW !in db
    ensures r.Success? ==> r.value == db[TASKS := TableV3(MigrateRows23(MigrateRows12(db[TASKS].rows1, now)))]
  {
    var first := Migration12(db, now);
    if first.Failure? then first
    else
      var db2 := first.value;
      var moved := TableV3(MigrateRows23(MigrateRows12(db[TASKS].rows1, now)));
      assert db2[TASKS := moved] == db[TASKS := moved];
      Migration23(db2)
  }

  /** Opening a database stored at `version`. Version 0 is a database
      file that did not exist: the version 3 table is created when it is
      missing (`CREATE TABLE IF NOT EXISTS`). Version 3 is opened as it is;
      versions 1 and 2 run the registered migrations up to 3; any other
      version has no migration path and fails. */
  function Open(db: Db, version: int, now: Int64): (r: Result<Db, SqlError>)
    ensures version == 0 ==> r.Success? && TASKS in r.value && r.value[TASKS] == (if TASKS in db then db[TASKS] else TableV3([]))
    ensures version == 0 ==> r.Success? && r.value.Keys == db.Keys + {TASKS}
                             && forall n :: n in db ==> r.value[n] == db[n]
    ensures version == DATABASE_VERSION ==> r == Success(db)
    ensures version == 2 ==> (r.Success? <==> TASKS in db && db[TASKS].TableV2? && TASKS_NEW !in db)
    ensures version == 2 && r.Success? ==> r.value == db[TASKS := TableV3(MigrateRows23(db[TASKS].rows2))]
    ensures version == 1 ==> (r.Success? <==> TASKS in db && db[TASKS].TableV1? && TASKS_NEW !in db)
    ensures version == 1 && r.Success? ==>
      r.value == db[TASKS := TableV3(MigrateRows23(MigrateRows12(db[TASKS].rows1, now)))]
    ensures version !in {0, 1, 2, 3} ==> r == Failure(NoMigrationPath(version))
  {
    if version == 0 then
      if TASKS in db then Success(db) else Success(db[TASKS := TableV3([])])
    else if version == DATABASE_VERSION then Success(db)
    else if version == 2 then Migration23(db)
    else if version == 1 then
      Migration13(db, now)
    else Failure(NoMigrationPath(version))
  }

  /** A version 1 database whose only table is `tasks` opens as a database
      whose only table is a version 3 `tasks`, holding one task per old row
      in the same order, each mapped field by field. */
  lemma OpenFromVersion1(rows: seq<RowV1>, now: Int64)
    ensures var r := Open(map[TASKS := TableV1(rows)], 1, now);
      && r.Success?
      && r.value.Keys == {TASKS}
      && r.value[TASKS].TableV3?
      && |r.value[TASKS].rows3| == |rows|
      && forall i :: 0 <= i < |rows| ==>
           r.value[TASKS].rows3[i] == Task(rows[i].id, rows[i].title, "", rows[i].phoneNumber, 1, None,
                                           rows[i].done, now, None, MIGRATED_COLOR)
  {
    var db := map[TASKS := TableV1(rows)];
    var r := Open(db, 1, now);
    assert r.value.Keys == {TASKS};
    forall i | 0 <= i < |rows|
      ensures r.value[TASKS].rows3[i] == Task(rows[i].id, rows[i].title, "", rows[i].phoneNumber, 1, None,
                                              rows[i].done, now, None, MIGRATED_COLOR)
    {
      MigrateRow13(rows[i], now);
    }
  }

  /** A fresh database file opens with one empty version 3 `tasks` table. */
  lemma OpenFresh(now: Int64)
    ensures Open(map[], 0, now) == Success(map[TASKS := TableV3([])])
  {
  }
}
