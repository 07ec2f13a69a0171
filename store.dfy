/** The data store: three tables keyed by their INTEGER PRIMARY KEY `id`, the
    constant seed rows, the idempotent INSERT OR REPLACE seeding done by
    `setup_database`, and the fail-soft read operations `execute_query` and
    `get_sample_data`. The SQL engine that runs a player's statement is an
    abstract function from the tables and the statement text to rows or an error. */
module Store {
  import opened Values

  datatype Option<T> = None | Some(value: T)

  datatype Employee = Employee(
    id: int, name: string, department: string, clearanceLevel: int,
    shiftStart: string, shiftEnd: string, weakness: string)

  datatype SecurityLog = SecurityLog(
    id: int, employeeId: int, location: string, accessTime: string, action: string)

  datatype Facility = Facility(
    id: int, roomName: string, floor: int, securityLevel: int, guardId: int)

  /** The three tables, each a map from primary key to row. */
  datatype Database = Database(
    employees: map<int, Employee>,
    securityLogs: map<int, SecurityLog>,
    facilities: map<int, Facility>)

  const EmptyDatabase := Database(map[], map[], map[])

  /** What the SQL engine makes of one statement: the fetched rows, or an sqlite error. */
  datatype EngineOutcome = Rows(rows: seq<Row>) | SqlError(message: string)

  /** The embedded SQL engine, seen from outside: it runs a statement against the tables. */
  type Engine = (Database, string) -> EngineOutcome

  const DefaultPath := "mission_database.db"

  // ---------------------------------------------------------------------------
  // Seed data

  const MarcusSteel := Employee(1, "Marcus Steel", "Security", 3, "22:00", "06:00", "coffee addiction")

  const SeedEmployees: seq<Employee> := [
    MarcusSteel,
    Employee(2, "Sarah Chen", "IT", 4, "09:00", "17:00", "fear of spiders"),
    Employee(3, "Viktor Petrov", "Executive", 5, "08:00", "18:00", "gambling problem"),
    Employee(4, "Elena Rodriguez", "Security", 2, "06:00", "14:00", "claustrophobia"),
    Employee(5, "David Kim", "Research", 4, "10:00", "22:00", "perfectionist")
  ]

  const SeedSecurityLogs: seq<SecurityLog> := [
    SecurityLog(1, 1, "Main Gate", "23:30", "patrol_start"),
    SecurityLog(2, 1, "Corridor A", "00:15", "patrol_check"),
    SecurityLog(3, 1, "Break Room", "01:00", "break"),
    SecurityLog(4, 4, "Main Gate", "07:00", "patrol_start"),
    SecurityLog(5, 3, "Executive Suite", "09:30", "meeting")
  ]

  const SeedFacilities: seq<Facility> := [
    Facility(1, "Server Room", 3, 5, 1),
    Facility(2, "Executive Suite", 5, 4, 3),
    Facility(3, "Research Lab", 2, 3, 5),
    Facility(4, "Security Office", 1, 2, 4)
  ]

  function EmployeeId(e: Employee): int { e.id }
  function SecurityLogId(l: SecurityLog): int { l.id }
  function FacilityId(f: Facility): int { f.id }

  /** No two rows of `rows` share a primary key. */
  ghost predicate DistinctIds<R>(rows: seq<R>, key: R -> int) {
    forall i, j :: 0 <= i < j < |rows| ==> key(rows[i]) != key(rows[j])
  }

  ghost function IdSet<R>(rows: seq<R>, key: R -> int): set<int> {
    set k | 0 <= k < |rows| :: key(rows[k])
  }

  // ---------------------------------------------------------------------------
  // INSERT OR REPLACE

  /** `executemany("INSERT OR REPLACE ...", rows)`: each row, in order, replaces
      whatever row the table held under its key. */
  function Upsert<R>(m: map<int, R>, rows: seq<R>, key: R -> int): map<int, R>
    decreases |rows|
  {
    if rows == [] then m else Upsert(m[key(rows[0]) := rows[0]], rows[1..], key)
  }

  /** Rows already in the table underneath do not influence the upserted ones. */
  lemma {:induction false} UpsertOverlay<R>(m: map<int, R>, n: map<int, R>, rows: seq<R>, key: R -> int)
    ensures Upsert(m + n, rows, key) == m + Upsert(n, rows, key)
    decreases |rows|
  {
    if rows != [] {
      var x := rows[0];
      assert (m + n)[key(x) := x] == m + n[key(x) := x];
      UpsertOverlay(m, n[key(x) := x], rows[1..], key);
    }
  }

  /** Running the same INSERT OR REPLACE batch twice is the same as running it once. */
  lemma UpsertIdempotent<R>(m: map<int, R>, rows: seq<R>, key: R -> int)
    ensures Upsert(Upsert(m, rows, key), rows, key) == Upsert(m, rows, key)
  {
    var u := Upsert(map[], rows, key);
    UpsertOverlay(m, map[], rows, key);
    assert m + map[] == m;
    UpsertOverlay(Upsert(m, rows, key), map[], rows, key);
    assert Upsert(m, rows, key) + map[] == Upsert(m, rows, key);
    assert (m + u) + u == m + u;
  }

  /** With distinct ids, the batch puts every row under its own id, adds exactly
      those ids, and leaves every other row of the table as it was. */
  lemma {:induction false} UpsertDistinct<R>(m: map<int, R>, rows: seq<R>, key: R -> int)
    requires DistinctIds(rows, key)
    ensures Upsert(m, rows, key).Keys == m.Keys + IdSet(rows, key)
    ensures forall k :: 0 <= k < |rows| ==> Upsert(m, rows, key)[key(rows[k])] == rows[k]
    ensures forall id :: id in m && id !in IdSet(rows, key) ==> Upsert(m, rows, key)[id] == m[id]
    decreases |rows|
  {
    if rows != [] {
      var x := rows[0];
      var m' := m[key(x) := x];
      var tail := rows[1..];
      assert DistinctIds(tail, key) by {
        forall i, j | 0 <= i < j < |tail| ensures key(tail[i]) != key(tail[j]) {
          assert tail[i] == rows[i + 1] && tail[j] == rows[j + 1];
        }
      }
      UpsertDistinct(m', tail, key);
      assert IdSet(rows, key) == {key(x)} + IdSet(tail, key) by {
        forall id | id in IdSet(rows, key) ensures id in {key(x)} + IdSet(tail, key) {
          var k :| 0 <= k < |rows| && key(rows[k]) == id;
          if k > 0 { assert tail[k - 1] == rows[k]; }
        }
        forall id | id in IdSet(tail, key) ensures id in IdSet(rows, key) {
          var k :| 0 <= k < |tail| && key(tail[k]) == id;
          assert rows[k + 1] == tail[k];
        }
      }
      assert key(x) !in IdSet(tail, key) by {
        forall k | 0 <= k < |tail| ensures key(tail[k]) != key(x) {
          assert tail[k] == rows[k + 1];
        }
      }
      forall k | 0 <= k < |rows| ensures Upsert(m, rows, key)[key(rows[k])] == rows[k] {
        if k > 0 { assert rows[k] == tail[k - 1]; }
      }
    }
  }

  /** A table whose every row sits under its own id stays so after any batch. */
  lemma {:induction false} UpsertKeepsKeys<R>(m: map<int, R>, rows: seq<R>, key: R -> int)
    requires forall id :: id in m ==> key(m[id]) == id
    ensures forall id :: id in Upsert(m, rows, key) ==> key(Upsert(m, rows, key)[id]) == id
    decreases |rows|
  {
    if rows != [] {
      UpsertKeepsKeys(m[key(rows[0]) := rows[0]], rows[1..], key);
    }
  }

  // ---------------------------------------------------------------------------
  // setup_database

  /** The tables after `setup_database` has upserted the three seed batches over `db`. */
  ghost function Seeded(db: Database): Database {
    Database(
      Upsert(db.employees, SeedEmployees, EmployeeId),
      Upsert(db.securityLogs, SeedSecurityLogs, SecurityLogId),
      Upsert(db.facilities, SeedFacilities, FacilityId))
  }

  /** Seeding is idempotent: a second setup changes nothing. */
  lemma SetupIdempotent(db: Database)
    ensures Seeded(Seeded(db)) == Seeded(db)
  {
    UpsertIdempotent(db.employees, SeedEmployees, EmployeeId);
    UpsertIdempotent(db.securityLogs, SeedSecurityLogs, SecurityLogId);
    UpsertIdempotent(db.facilities, SeedFacilities, FacilityId);
  }

  /** The seed ids of each table are 1, 2, 3, ... in order, hence distinct. */
  lemma SeedIdsDistinct()
    ensures DistinctIds(SeedEmployees, EmployeeId)
    ensures DistinctIds(SeedSecurityLogs, SecurityLogId)
    ensures DistinctIds(SeedFacilities, FacilityId)
    ensures IdSet(SeedEmployees, EmployeeId) == {1, 2, 3, 4, 5}
    ensures IdSet(SeedSecurityLogs, SecurityLogId) == {1, 2, 3, 4, 5}
    ensures IdSet(SeedFacilities, FacilityId) == {1, 2, 3, 4}
  {
    SeedEmployeeIds();
    SeedSecurityLogIds();
    SeedFacilityIds();
  }

  lemma SeedEmployeeIds()
    ensures DistinctIds(SeedEmployees, EmployeeId)
    ensures IdSet(SeedEmployees, EmployeeId) == {1, 2, 3, 4, 5}
  {
    assert forall k :: 0 <= k < |SeedEmployees| ==> SeedEmployees[k].id == k + 1;
    assert SeedEmployees[0].id == 1 && SeedEmployees[1].id == 2 && SeedEmployees[2].id == 3;
    assert SeedEmployees[3].id == 4 && SeedEmployees[4].id == 5;
  }

  lemma SeedSecurityLogIds()
    ensures DistinctIds(SeedSecurityLogs, SecurityLogId)
    ensures IdSet(SeedSecurityLogs, SecurityLogId) == {1, 2, 3, 4, 5}
  {
    assert forall k :: 0 <= k < |SeedSecurityLogs| ==> SeedSecurityLogs[k].id == k + 1;
    assert SeedSecurityLogs[0].id == 1 && SeedSecurityLogs[1].id == 2 && SeedSecurityLogs[2].id == 3;
    assert SeedSecurityLogs[3].id == 4 && SeedSecurityLogs[4].id == 5;
  }

  lemma SeedFacilityIds()
    ensures DistinctIds(SeedFacilities, FacilityId)
    ensures IdSet(SeedFacilities, FacilityId) == {1, 2, 3, 4}
  {
    assert forall k :: 0 <= k < |SeedFacilities| ==> SeedFacilities[k].id == k + 1;
    assert SeedFacilities[0].id == 1 && SeedFacilities[1].id == 2;
    assert SeedFacilities[2].id == 3 && SeedFacilities[3].id == 4;
  }

  /** A batch with distinct ids, ids given by name. */
  lemma UpsertBatch<R>(m: map<int, R>, rows: seq<R>, key: R -> int, ids: set<int>)
    requires DistinctIds(rows, key) && IdSet(rows, key) == ids
    ensures Upsert(m, rows, key).Keys == m.Keys + ids
    ensures forall k :: 0 <= k < |rows| ==> Upsert(m, rows, key)[key(rows[k])] == rows[k]
    ensures forall id :: id in m && id !in ids ==> Upsert(m, rows, key)[id] == m[id]
  {
    UpsertDistinct(m, rows, key);
  }

  /** Every foreign key of the seed (`security_logs.employee_id`,
      `facilities.guard_id`) names a seeded employee. */
  lemma SeedReferencesValid()
    ensures forall k :: 0 <= k < |SeedSecurityLogs| ==> SeedSecurityLogs[k].employeeId in IdSet(SeedEmployees, EmployeeId)
    ensures forall k :: 0 <= k < |SeedFacilities| ==> SeedFacilities[k].guardId in IdSet(SeedEmployees, EmployeeId)
  {
    SeedIdsDistinct();
    var ids := IdSet(SeedEmployees, EmployeeId);
    assert 1 in ids && 3 in ids && 4 in ids && 5 in ids;
    SeedLogEmployees();
    SeedFacilityGuards();
    forall k | 0 <= k < |SeedFacilities| ensures SeedFacilities[k].guardId in ids {
      var g := SeedFacilities[k].guardId;
      assert g == 1 || g == 3 || g == 4 || g == 5;
    }
  }

  lemma SeedLogEmployees()
    ensures forall k :: 0 <= k < |SeedSecurityLogs| ==> SeedSecurityLogs[k].employeeId in {1, 3, 4}
  {
    assert SeedSecurityLogs[0].employeeId == 1 && SeedSecurityLogs[1].employeeId == 1;
    assert SeedSecurityLogs[2].employeeId == 1 && SeedSecurityLogs[3].employeeId == 4;
    assert SeedSecurityLogs[4].employeeId == 3;
  }

  lemma SeedFacilityGuards()
    ensures forall k :: 0 <= k < |SeedFacilities| ==> SeedFacilities[k].guardId in {1, 3, 4, 5}
  {
    assert SeedFacilities[0].guardId == 1 && SeedFacilities[1].guardId == 3;
    assert SeedFacilities[2].guardId == 5 && SeedFacilities[3].guardId == 4;
  }

  /** Every log's employee and every facility's guard is a row of `employees`. */
  ghost predicate ReferencesValid(db: Database) {
    && (forall id :: id in db.securityLogs ==> db.securityLogs[id].employeeId in db.employees)
    && (forall id :: id in db.facilities ==> db.facilities[id].guardId in db.employees)
  }

  /** Every row is stored under its own `id`, the INTEGER PRIMARY KEY. */
  predicate KeysAreIds(db: Database) {
    && (forall id :: id in db.employees ==> db.employees[id].id == id)
    && (forall id :: id in db.securityLogs ==> db.securityLogs[id].id == id)
    && (forall id :: id in db.facilities ==> db.facilities[id].id == id)
  }

  lemma SetupKeepsKeys(db: Database)
    requires KeysAreIds(db)
    ensures KeysAreIds(Seeded(db))
  {
    UpsertKeepsKeys(db.employees, SeedEmployees, EmployeeId);
    UpsertKeepsKeys(db.securityLogs, SeedSecurityLogs, SecurityLogId);
    UpsertKeepsKeys(db.facilities, SeedFacilities, FacilityId);
  }

  /** What one setup over any tables guarantees for `employees`: the seed rows sit
      under their ids, the keys grow by exactly the seed ids, other rows are untouched. */
  lemma SetupEmployees(db: Database)
    ensures Seeded(db).employees.Keys == db.employees.Keys + {1, 2, 3, 4, 5}
    ensures forall k :: 0 <= k < |SeedEmployees| ==> Seeded(db).employees[SeedEmployees[k].id] == SeedEmployees[k]
    ensures Seeded(db).employees[1] == MarcusSteel
    ensures forall id :: id in db.employees && id !in {1, 2, 3, 4, 5} ==> Seeded(db).employees[id] == db.employees[id]
  {
    SeedEmployeeIds();
    UpsertBatch(db.employees, SeedEmployees, EmployeeId, {1, 2, 3, 4, 5});
    assert SeedEmployees[0] == MarcusSteel;
  }

  /** The same for `security_logs`. */
  lemma SetupSecurityLogs(db: Database)
    ensures Seeded(db).securityLogs.Keys == db.securityLogs.Keys + {1, 2, 3, 4, 5}
    ensures forall k :: 0 <= k < |SeedSecurityLogs| ==> Seeded(db).securityLogs[SeedSecurityLogs[k].id] == SeedSecurityLogs[k]
    ensures forall id :: id in db.securityLogs && id !in {1, 2, 3, 4, 5} ==> Seeded(db).securityLogs[id] == db.securityLogs[id]
  {
    SeedSecurityLogIds();
    UpsertBatch(db.securityLogs, SeedSecurityLogs, SecurityLogId, {1, 2, 3, 4, 5});
  }

  /** The same for `facilities`. */
  lemma SetupFacilities(db: Database)
    ensures Seeded(db).facilities.Keys == db.facilities.Keys + {1, 2, 3, 4}
    ensures forall k :: 0 <= k < |SeedFacilities| ==> Seeded(db).facilities[SeedFacilities[k].id] == SeedFacilities[k]
    ensures forall id :: id in db.facilities && id !in {1, 2, 3, 4} ==> Seeded(db).facilities[id] == db.facilities[id]
  {
    SeedFacilityIds();
    UpsertBatch(db.facilities, SeedFacilities, FacilityId, {1, 2, 3, 4});
  }

  /** Setup keeps every log's employee reference valid. */
  lemma SetupKeepsLogReferences(db: Database)
    requires forall id :: id in db.securityLogs ==> db.securityLogs[id].employeeId in db.employees
    ensures forall id :: id in Seeded(db).securityLogs ==> Seeded(db).securityLogs[id].employeeId in Seeded(db).employees
  {
    SetupEmployees(db);
    SetupSecurityLogs(db);
    var s := Seeded(db);
    forall id | id in s.securityLogs ensures s.securityLogs[id].employeeId in s.employees {
      if 1 <= id <= 5 {
        var k := id - 1;
        assert SeedSecurityLogs[k].id == id && SeedSecurityLogs[k].employeeId in {1, 3, 4};
        assert s.securityLogs[id] == SeedSecurityLogs[k];
      } else {
        assert id in db.securityLogs && s.securityLogs[id] == db.securityLogs[id];
      }
    }
  }

  /** Setup keeps every facility's guard reference valid. */
  lemma SetupKeepsGuardReferences(db: Database)
    requires forall id :: id in db.facilities ==> db.facilities[id].guardId in db.employees
    ensures forall id :: id in Seeded(db).facilities ==> Seeded(db).facilities[id].guardId in Seeded(db).employees
  {
    SetupEmployees(db);
    SetupFacilities(db);
    var s := Seeded(db);
    forall id | id in s.facilities ensures s.facilities[id].guardId in s.employees {
      if 1 <= id <= 4 {
        var k := id - 1;
        assert SeedFacilities[k].id == id && SeedFacilities[k].guardId in {1, 3, 4, 5};
        assert s.facilities[id] == SeedFacilities[k];
      } else {
        assert id in db.facilities && s.facilities[id] == db.facilities[id];
      }
    }
  }

  /** Setup keeps valid foreign references valid. */
  lemma SetupKeepsReferences(db: Database)
    requires ReferencesValid(db)
    ensures ReferencesValid(Seeded(db))
  {
    SetupKeepsLogReferences(db);
    SetupKeepsGuardReferences(db);
  }

  /** A fresh store holds exactly 5 employees, 5 security logs and 4 facilities,
      with valid references; setting it up again yields the same tables. */
  lemma FreshSetup()
    ensures |Seeded(EmptyDatabase).employees| == 5
    ensures |Seeded(EmptyDatabase).securityLogs| == 5
    ensures |Seeded(EmptyDatabase).facilities| == 4
    ensures ReferencesValid(Seeded(EmptyDatabase))
    ensures Seeded(Seeded(EmptyDatabase)) == Seeded(EmptyDatabase)
  {
    FreshEmployees();
    FreshSecurityLogs();
    FreshFacilities();
    SetupKeepsReferences(EmptyDatabase);
    SetupIdempotent(EmptyDatabase);
  }

  lemma FreshEmployees()
    ensures |Seeded(EmptyDatabase).employees| == 5
  {
    SetupEmployees(EmptyDatabase);
    var t := Seeded(EmptyDatabase).employees;
    assert t.Keys == {1, 2, 3, 4, 5};
    assert |t| == |t.Keys|;
  }

  lemma FreshSecurityLogs()
    ensures |Seeded(EmptyDatabase).securityLogs| == 5
  {
    SetupSecurityLogs(EmptyDatabase);
    var t := Seeded(EmptyDatabase).securityLogs;
    assert t.Keys == {1, 2, 3, 4, 5};
    assert |t| == |t.Keys|;
  }

  lemma FreshFacilities()
    ensures |Seeded(EmptyDatabase).facilities| == 4
  {
    SetupFacilities(EmptyDatabase);
    var t := Seeded(EmptyDatabase).facilities;
    assert t.Keys == {1, 2, 3, 4};
    assert |t| == |t.Keys|;
  }

  /** The store's handle: the database file's path and the tables it holds. */
  class DatabaseManager {
    const dbPath: string
    var tables: Database

    /** `DatabaseManager(db_path)`: opens the file, whose current tables are
        `existing` (all empty for a new file), and runs `setup_database`. */
    constructor (dbPath: string, existing: Database)
      ensures this.dbPath == dbPath
      ensures tables == Seeded(existing)
    {
      this.dbPath := dbPath;
      tables := existing;
      new;
      SetupDatabase();
    }

    /** `setup_database`: the three `executemany` INSERT OR REPLACE batches, row by row. */
    method SetupDatabase()
      modifies this
      ensures tables == Seeded(old(tables))
    {
      var i := 0;
      while i < |SeedEmployees|
        invariant 0 <= i <= |SeedEmployees|
        invariant tables.securityLogs == old(tables.securityLogs) && tables.facilities == old(tables.facilities)
        invariant Upsert(tables.employees, SeedEmployees[i..], EmployeeId) == Seeded(old(tables)).employees
      {
        assert SeedEmployees[i..][1..] == SeedEmployees[i + 1..];
        tables := tables.(employees := tables.employees[SeedEmployees[i].id := SeedEmployees[i]]);
        i := i + 1;
      }
      i := 0;
      while i < |SeedSecurityLogs|
        invariant 0 <= i <= |SeedSecurityLogs|
        invariant tables.employees == Seeded(old(tables)).employees && tables.facilities == old(tables.facilities)
        invariant Upsert(tables.securityLogs, SeedSecurityLogs[i..], SecurityLogId) == Seeded(old(tables)).securityLogs
      {
        assert SeedSecurityLogs[i..][1..] == SeedSecurityLogs[i + 1..];
        tables := tables.(securityLogs := tables.securityLogs[SeedSecurityLogs[i].id := SeedSecurityLogs[i]]);
        i := i + 1;
      }
      i := 0;
      while i < |SeedFacilities|
        invariant 0 <= i <= |SeedFacilities|
        invariant tables.employees == Seeded(old(tables)).employees
        invariant tables.securityLogs == Seeded(old(tables)).securityLogs
        invariant Upsert(tables.facilities, SeedFacilities[i..], FacilityId) == Seeded(old(tables)).facilities
      {
        assert SeedFacilities[i..][1..] == SeedFacilities[i + 1..];
        tables := tables.(facilities := tables.facilities[SeedFacilities[i].id := SeedFacilities[i]]);
        i := i + 1;
      }
    }
  }

  // ---------------------------------------------------------------------------
  // execute_query

  /** `execute_query`: the engine's rows on success, `[]` on any sqlite error,
      which is never passed on to the caller. */
  function ExecuteQuery(engine: Engine, db: Database, query: string): (r: seq<Row>)
    ensures engine(db, query).Rows? ==> r == engine(db, query).rows
    ensures engine(db, query).SqlError? ==> r == []
    ensures r != [] ==> engine(db, query) == Rows(r)
  {
    match engine(db, query)
    case Rows(rows) => rows
    case SqlError(_) => []
  }

  // ---------------------------------------------------------------------------
  // get_sample_data

  lemma NonEmptyHasElement(ks: set<int>)
    requires ks != {}
    ensures exists x :: x in ks
  {
    if forall x :: x !in ks {
      assert false;
    }
  }

  predicate IsLeast(m: int, ks: set<int>) {
    m in ks && forall k :: k in ks ==> m <= k
  }

  /** A non-empty finite set of integers has a least element. */
  lemma {:induction false} LeastExists(ks: set<int>)
    requires ks != {}
    ensures exists m :: IsLeast(m, ks)
    decreases ks
  {
    NonEmptyHasElement(ks);
    var x :| x in ks;
    if ks != {x} {
      var rest := ks - {x};
      LeastExists(rest);
      var m :| IsLeast(m, rest);
      var least := if x < m then x else m;
      forall k | k in ks ensures least <= k {
        if k != x { assert k in rest; }
      }
      assert IsLeast(least, ks);
    } else {
      assert IsLeast(x, ks);
    }
  }

  predicate Ascending(r: seq<int>) {
    forall i, j :: 0 <= i < j < |r| ==> r[i] < r[j]
  }

  lemma LeastThenRest(m: int, ks: set<int>, rest: seq<int>)
    requires IsLeast(m, ks)
    requires |rest| == |ks - {m}| && (forall k :: k in ks - {m} <==> k in rest) && Ascending(rest)
    ensures |[m] + rest| == |ks| && (forall k :: k in ks <==> k in [m] + rest) && Ascending([m] + rest)
  {
    var r := [m] + rest;
    forall i, j | 0 <= i < j < |r| ensures r[i] < r[j] {
      assert r[j] == rest[j - 1];
      if i > 0 { assert r[i] == rest[i - 1]; } else { assert rest[j - 1] in ks - {m}; }
    }
  }

  /** The keys of a table in ascending order: the order in which sqlite scans a
      table whose INTEGER PRIMARY KEY is its rowid. */
  function SortedKeys(ks: set<int>): (r: seq<int>)
    ensures |r| == |ks|
    ensures forall k :: k in ks <==> k in r
    ensures Ascending(r)
    decreases |ks|
  {
    if ks == {} then []
    else
      LeastExists(ks);
      assert forall a, b :: IsLeast(a, ks) && IsLeast(b, ks) ==> a == b;
      var m :| IsLeast(m, ks);
      var rest := SortedKeys(ks - {m});
      LeastThenRest(m, ks, rest);
      [m] + rest
  }

  function EmployeeRow(e: Employee): Row {
    [IntVal(e.id), TextVal(e.name), TextVal(e.department), IntVal(e.clearanceLevel),
     TextVal(e.shiftStart), TextVal(e.shiftEnd), TextVal(e.weakness)]
  }

  function SecurityLogRow(l: SecurityLog): Row {
    [IntVal(l.id), IntVal(l.employeeId), TextVal(l.location), TextVal(l.accessTime), TextVal(l.action)]
  }

  function FacilityRow(f: Facility): Row {
    [IntVal(f.id), TextVal(f.roomName), IntVal(f.floor), IntVal(f.securityLevel), IntVal(f.guardId)]
  }

  /** The column names of each table in declaration order, as the `CREATE TABLE`
      statements give them; None for a table the store does not create. */
  function Columns(tableName: string): Option<seq<string>> {
    if tableName == "employees" then
      Some(["id", "name", "department", "clearance_level", "shift_start", "shift_end", "weakness"])
    else if tableName == "security_logs" then
      Some(["id", "employee_id", "location", "access_time", "action"])
    else if tableName == "facilities" then
      Some(["id", "room_name", "floor", "security_level", "guard_id"])
    else
      None
  }

  /** The row `rowOf` makes of each stored entry of `m`, one per key, in ascending
      key order: the order in which sqlite scans a table by its integer primary key. */
  function KeyOrderRows<R>(m: map<int, R>, rowOf: R -> Row): (r: seq<Row>)
    ensures |r| == |m|
  {
    var ks := SortedKeys(m.Keys);
    assert |m.Keys| == |m|;
    seq(|ks|, i requires 0 <= i < |ks| => rowOf(m[ks[i]]))
  }

  /** `SELECT * FROM <tableName>`: every row of the named table in storage order,
      or None when no such table exists (sqlite reports an error). */
  function TableScan(db: Database, tableName: string): (r: Option<seq<Row>>)
    ensures tableName == "employees" ==> r.Some? && |r.value| == |db.employees|
    ensures tableName == "security_logs" ==> r.Some? && |r.value| == |db.securityLogs|
    ensures tableName == "facilities" ==> r.Some? && |r.value| == |db.facilities|
    ensures r.None? <==> tableName !in {"employees", "security_logs", "facilities"}
  {
    if tableName == "employees" then
      Some(KeyOrderRows(db.employees, EmployeeRow))
    else if tableName == "security_logs" then
      Some(KeyOrderRows(db.securityLogs, SecurityLogRow))
    else if tableName == "facilities" then
      Some(KeyOrderRows(db.facilities, FacilityRow))
    else
      None
  }

  /** `get_sample_data(table_name, limit)`: `SELECT * FROM table LIMIT limit`, with
      `[]` in place of an sqlite error. A negative LIMIT is no limit in sqlite. */
  function GetSampleData(db: Database, tableName: string, limit: int): (r: seq<Row>)
    ensures TableScan(db, tableName).None? ==> r == []
    ensures TableScan(db, tableName).Some? ==>
              var all := TableScan(db, tableName).value;
              && r <= all
              && |r| == (if limit < 0 || limit >= |all| then |all| else limit)
  {
    match TableScan(db, tableName)
    case None => []
    case Some(all) => if limit < 0 || limit >= |all| then all else all[..limit]
  }

  /** A scan exists for exactly the created tables, and each of its rows has one
      value per declared column, in declaration order. */
  lemma ScanMatchesColumns(db: Database, tableName: string)
    ensures TableScan(db, tableName).Some? <==> Columns(tableName).Some?
    ensures TableScan(db, tableName).Some? ==>
              forall i :: 0 <= i < |TableScan(db, tableName).value| ==>
                |TableScan(db, tableName).value[i]| == |Columns(tableName).value|
  {
    if tableName == "employees" {
      KeyOrderRowsWidth(db.employees, EmployeeRow, 7);
    } else if tableName == "security_logs" {
      KeyOrderRowsWidth(db.securityLogs, SecurityLogRow, 5);
    } else if tableName == "facilities" {
      KeyOrderRowsWidth(db.facilities, FacilityRow, 5);
    }
  }

  /** A key-order listing of rows that all have `n` values has only such rows. */
  lemma KeyOrderRowsWidth<R>(m: map<int, R>, rowOf: R -> Row, n: nat)
    requires forall x :: |rowOf(x)| == n
    ensures forall i :: 0 <= i < |KeyOrderRows(m, rowOf)| ==> |KeyOrderRows(m, rowOf)[i]| == n
  {
  }

  /** Each row of a key-order listing is some stored entry's row, and every
      stored entry's row is in it. */
  lemma KeyOrderComplete<R>(m: map<int, R>, rowOf: R -> Row)
    ensures var rows := KeyOrderRows(m, rowOf);
            forall i :: 0 <= i < |rows| ==> exists id :: id in m && rows[i] == rowOf(m[id])
    ensures forall id :: id in m ==> rowOf(m[id]) in KeyOrderRows(m, rowOf)
  {
    var rows := KeyOrderRows(m, rowOf);
    var ks := SortedKeys(m.Keys);
    forall i | 0 <= i < |rows| ensures exists id :: id in m && rows[i] == rowOf(m[id]) {
      assert ks[i] in m;
    }
    forall id | id in m ensures rowOf(m[id]) in rows {
      var i :| 0 <= i < |ks| && ks[i] == id;
      assert rows[i] == rowOf(m[id]);
    }
  }

  /** When each stored entry's row starts with its key, a key-order listing
      starts its rows with strictly ascending integers. */
  lemma KeyOrderAscending<R>(m: map<int, R>, rowOf: R -> Row)
    requires forall id :: id in m ==> |rowOf(m[id])| > 0 && rowOf(m[id])[0] == IntVal(id)
    ensures var rows := KeyOrderRows(m, rowOf);
            forall i :: 0 <= i < |rows| ==> |rows[i]| > 0 && rows[i][0].IntVal?
    ensures var rows := KeyOrderRows(m, rowOf);
            forall i, j :: 0 <= i < j < |rows| ==> rows[i][0].n < rows[j][0].n
  {
    var rows := KeyOrderRows(m, rowOf);
    var ks := SortedKeys(m.Keys);
    forall i | 0 <= i < |rows| ensures |rows[i]| > 0 && rows[i][0] == IntVal(ks[i]) {
      assert ks[i] in m;
    }
  }

  /** The employees scan lists each employee once, as the row of that employee,
      in ascending key order, and so in ascending id order. */
  lemma EmployeeScanOrder(db: Database)
    requires KeysAreIds(db)
    ensures var rows := TableScan(db, "employees").value;
            && rows == KeyOrderRows(db.employees, EmployeeRow)
            && (forall i :: 0 <= i < |rows| ==> exists id :: id in db.employees && rows[i] == EmployeeRow(db.employees[id]))
            && (forall id :: id in db.employees ==> EmployeeRow(db.employees[id]) in rows)
            && (forall i, j :: 0 <= i < j < |rows| ==> rows[i][0].n < rows[j][0].n)
  {
    var rows := TableScan(db, "employees").value;
    KeyOrderComplete(db.employees, EmployeeRow);
    KeyOrderAscending(db.employees, EmployeeRow);
  }

  /** The same for the security logs scan. */
  lemma SecurityLogScanOrder(db: Database)
    requires KeysAreIds(db)
    ensures var rows := TableScan(db, "security_logs").value;
            && rows == KeyOrderRows(db.securityLogs, SecurityLogRow)
            && (forall i :: 0 <= i < |rows| ==> exists id :: id in db.securityLogs && rows[i] == SecurityLogRow(db.securityLogs[id]))
            && (forall id :: id in db.securityLogs ==> SecurityLogRow(db.securityLogs[id]) in rows)
            && (forall i, j :: 0 <= i < j < |rows| ==> rows[i][0].n < rows[j][0].n)
  {
    var rows := TableScan(db, "security_logs").value;
    KeyOrderComplete(db.securityLogs, SecurityLogRow);
    KeyOrderAscending(db.securityLogs, SecurityLogRow);
  }

  /** The same for the facilities scan. */
  lemma FacilityScanOrder(db: Database)
    requires KeysAreIds(db)
    ensures var rows := TableScan(db, "facilities").value;
            && rows == KeyOrderRows(db.facilities, FacilityRow)
            && (forall i :: 0 <= i < |rows| ==> exists id :: id in db.facilities && rows[i] == FacilityRow(db.facilities[id]))
            && (forall id :: id in db.facilities ==> FacilityRow(db.facilities[id]) in rows)
            && (forall i, j :: 0 <= i < j < |rows| ==> rows[i][0].n < rows[j][0].n)
  {
    var rows := TableScan(db, "facilities").value;
    KeyOrderComplete(db.facilities, FacilityRow);
    KeyOrderAscending(db.facilities, FacilityRow);
  }

  /** After setup on a fresh file, sampling 3 employees gives 3 rows and sampling
      more rows than a table has gives the whole table. */
  lemma FreshSamples()
    ensures |GetSampleData(Seeded(EmptyDatabase), "employees", 3)| == 3
    ensures |GetSampleData(Seeded(EmptyDatabase), "security_logs", 3)| == 3
    ensures |GetSampleData(Seeded(EmptyDatabase), "facilities", 3)| == 3
    ensures GetSampleData(Seeded(EmptyDatabase), "facilities", 10) == TableScan(Seeded(EmptyDatabase), "facilities").value
    ensures |GetSampleData(Seeded(EmptyDatabase), "facilities", 10)| == 4
  {
    var db := Seeded(EmptyDatabase);
    FreshEmployees();
    FreshSecurityLogs();
    FreshFacilities();
    assert |TableScan(db, "employees").value| == 5;
    assert |TableScan(db, "security_logs").value| == 5;
    assert |TableScan(db, "facilities").value| == 4;
  }

  /** The scan starts at the least key. */
  lemma LeastKeyFirst(m: int, ks: set<int>)
    requires IsLeast(m, ks)
    ensures |SortedKeys(ks)| > 0 && SortedKeys(ks)[0] == m
  {
    var r := SortedKeys(ks);
    assert r[0] in ks;
  }

  /** On a fresh file the first sampled employee is Marcus Steel, id 1. */
  lemma FirstSampleIsMarcus()
    ensures |GetSampleData(Seeded(EmptyDatabase), "employees", 3)| == 3
    ensures GetSampleData(Seeded(EmptyDatabase), "employees", 3)[0] == EmployeeRow(MarcusSteel)
  {
    FreshEmployees();
    SetupEmployees(EmptyDatabase);
    var db := Seeded(EmptyDatabase);
    assert db.employees.Keys == {1, 2, 3, 4, 5};
    LeastKeyFirst(1, db.employees.Keys);
    assert TableScan(db, "employees").value[0] == EmployeeRow(db.employees[1]);
  }
}
