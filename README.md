# Operation Syntax, modelled in Dafny

Operation Syntax is a terminal game that teaches SQL. A store class,
`DatabaseManager`, owns an sqlite file with three tables: `employees`,
`security_logs` and `facilities`. Setting up the store seeds those tables with a
fixed data set using INSERT OR REPLACE. The store answers the player's SQL in a
fail-soft way: an sqlite error becomes an empty result. The game class,
`SQLHackerGame`, loops over a menu (SCHEMA, QUERY, SAMPLES, DEBUG, QUIT). It
prints sample tables in fixed-width cells. It checks the player's query with a
substring check: mission 1 is solved when the lower-cased query mentions a time
and "weakness", and some printed result row names Marcus Steel and his coffee
addiction.

The model has five modules, one file each:

- `text.dfy` (`Text`): the string operations the game relies on, with Python's
  meaning. These are substring search (`t in s`), `strip` over Python's
  whitespace set, ASCII `upper`/`lower`, `sep.join` and `str(int)`. It also has
  `rstrip`, which the game never calls; the model uses it only to state that the
  cell padding can be undone.
- `values.dfy` (`Values`): the values of an sqlite result row, and how Python
  prints them. `str(value)` fills a sample cell; `str(row)` is the tuple's repr,
  which the completion check searches.
- `store.dfy` (`Store`): the tables as maps from primary key to row, and the seed
  rows. INSERT OR REPLACE is `Upsert`. The `DatabaseManager` class has a
  `SetupDatabase` method that upserts row by row, as `executemany` does.
  `ExecuteQuery` and `GetSampleData` are fail-soft reads. The sqlite engine that
  runs a player's statement is an abstract function parameter, `Engine`.
- `mission.dfy` (`Mission`): the completion check as a predicate, `MissionSolved`. The
  check's loop is the method `CheckMissionCompletion`, proved equal to that
  predicate.
- `game.dfy` (`Game`): the menu's normalisation and dispatch, and the sample-table
  layout.
  - `Turn` and `Play` specify the loop of `run_game` as a function of the lines
    the player types.
  - The `HackerGame` class holds the `missionComplete` field. Its `RunGame` method
    runs the while loop and is proved to produce exactly the session `Play`
    describes.

Keyboard input is a parameter: the sequence of lines the player types. When the
lines run out, `input()` raises EOFError. The loop's `except Exception` handler
catches it, but the handler calls `input()` again, so the error escapes
`run_game`. The model ends such a session with `InputExhausted`.

The mission briefing shown before each menu exists for mission 1 only. With any
other mission active, every pass raises KeyError before the menu line is read;
the handler prints the error and its `input()` takes the next line as the Enter
press. The model shows this as a `BriefingMissing` event, so no command is ever
dispatched for another mission.

## Model

| member | source | states |
|---|---|---|
| Text.Strip | game_test.py:164 | definition of `strip()`: the text between the leading and the trailing run of whitespace; StripShape, StripUnique and StripIdempotent prove what it returns |
| Text.StripRight | game_test.py:107 | definition of `rstrip()`, the inverse of the cell padding: the text without its trailing whitespace; FormatCellRoundTrip uses it |
| Text.Upper | game_test.py:164 | definition of `upper()` on ASCII letters, character by character; UpperPieces, QueryCaseInsensitive and MenuChoiceAnyCase prove what its callers use |
| Text.Lower | game_test.py:121 | definition of `lower()` on ASCII letters, character by character; LowerKeepsPiece, QueryCaseInsensitive and SampleQueryKeywords prove what its callers use |
| Text.StripShape | game_test.py:180 | `strip()` returns a piece of the line that neither starts nor ends with whitespace, and only whitespace was dropped around it |
| Text.StripUnique | game_test.py:164 | stripping a whitespace-padded text returns exactly its middle, when the middle has no whitespace at its ends |
| Text.StripIdempotent | game_test.py:180 | stripping a stripped text changes nothing |
| Values.StrOf | game_test.py:107 | definition of `str(val)` for a sample cell: `None`, the decimal digits of an integer, or the text itself; ReprShowsStr relates it to the repr |
| Values.ReprOf | game_test.py:134 | definition of `repr(val)` inside a printed tuple: `None`, the decimal digits, or the text between single quotes |
| Values.RowRepr | game_test.py:134 | definition of `str(result)` for a tuple: the values' reprs joined by `, ` in parentheses, with a trailing comma for one value; RowReprShowsValue and PairRepr prove what it shows |
| Values.RowReprShowsValue | game_test.py:134 | the printed row `str(result)` contains the text of each of its values verbatim |
| Values.PairRepr | game_test.py:134 | a two-column row prints as `(a, b)` with each value's repr |
| Mission.HasTimeCondition | game_test.py:124-125 | definition: the lower-cased query contains one of "01:00", "1:00", "shift", "time"; TimeConditionWithoutLeadingZero reduces it to three |
| Mission.RowMatches | game_test.py:133-135 | definition: the printed row contains "Marcus Steel" and "coffee addiction", case-sensitively; MatchingRow and RowMatchCaseSensitive prove both sides |
| Mission.MissionSolved | game_test.py:114-140 | definition of the win condition: mission 1, a time indicator and "weakness" in the lower-cased query, and some matching row; SolvedExactly proves each part necessary |
| Mission.CheckMissionCompletion | game_test.py:114-140 | returns true exactly when mission 1 is active, the lower-cased query has a time indicator and "weakness", and some row's printed form has "Marcus Steel" and "coffee addiction" |
| Mission.FindGuardRow | game_test.py:133-137 | the result loop finds a row exactly when some row's printed form names Marcus Steel and his coffee addiction |
| Mission.TimeConditionWithoutLeadingZero | game_test.py:124-125 | the time check holds exactly when the query has "1:00", "shift" or "time", because "01:00" contains "1:00" |
| Mission.SolvedExactly | game_test.py:119-137 | the mission counts as complete exactly when every one of its conditions holds; each is necessary and together they suffice |
| Mission.NeverSolved | game_test.py:119-140 | with another mission active, or with no rows, the mission is not complete |
| Mission.SolvedMonotone | game_test.py:133-137 | a query that completes the mission with some rows also completes it on any result list holding those rows |
| Mission.QueryCaseInsensitive | game_test.py:121 | the verdict does not change when the query is upper- or lower-cased |
| Mission.MatchingRow | game_test.py:134-135 | a row holding the texts "Marcus Steel" and "coffee addiction", at any positions, matches |
| Mission.MarcusSteelRowMatches | database_manager.py:76 | the full row of seeded employee 1 matches |
| Mission.RowMatchCaseSensitive | game_test.py:135 | the row check is case-sensitive: "marcus steel" in lower case does not match |
| Mission.WinningQueryExample | game_test.py:121-137 | a sample winning query passes with Marcus Steel's row and fails with another employee's row |
| Mission.IdQueryNeverSolves | game_test.py:124-131 | `SELECT * FROM employees WHERE id=1` lacks "weakness" and any clock time, so it never passes whatever rows come back |
| Store.Upsert | database_manager.py:83-87 | definition of `executemany("INSERT OR REPLACE ...")`: each row in turn replaces the table's row under its key; UpsertDistinct, UpsertIdempotent and UpsertOverlay prove its effect |
| Store.UpsertOverlay | database_manager.py:83-87 | rows already in the table under other keys do not influence the rows the batch writes |
| Store.UpsertIdempotent | database_manager.py:83-87 | running an INSERT OR REPLACE batch twice gives the same table as running it once |
| Store.UpsertDistinct | database_manager.py:83-87 | with distinct ids, the batch puts each row under its own id, adds exactly those ids and leaves every other row as it was |
| Store.UpsertKeepsKeys | database_manager.py:83-87 | a table whose rows sit under their own ids stays so after any batch |
| Store.SeedIdsDistinct | database_manager.py:75-108 | the seed ids of each table are distinct: 1 to 5 for employees and logs, 1 to 4 for facilities |
| Store.SeedReferencesValid | database_manager.py:89-108 | every seeded log's `employee_id` and every seeded facility's `guard_id` is a seeded employee's id |
| Store.Seeded | database_manager.py:30-123 | definition of the tables after setup: the three seed batches upserted over the existing tables; SetupIdempotent, SetupEmployees and FreshSetup prove what they hold |
| Store.SetupIdempotent | database_manager.py:30-123 | a second setup over the tables a setup produced changes nothing |
| Store.SetupKeepsKeys | database_manager.py:40-114 | setup keeps every row stored under its own INTEGER PRIMARY KEY |
| Store.SetupEmployees | database_manager.py:75-87 | after setup the employee keys are the old keys plus 1 to 5, each seed row sits under its id (Marcus Steel under 1), and other rows are untouched |
| Store.SetupSecurityLogs | database_manager.py:89-101 | the same statement for `security_logs` |
| Store.SetupFacilities | database_manager.py:103-114 | the same statement for `facilities`, with keys 1 to 4 |
| Store.SetupKeepsReferences | database_manager.py:52-114 | setup keeps every log's employee and every facility's guard a stored employee |
| Store.FreshSetup | database_manager.py:30-123 | setup on a new file gives exactly 5 employees, 5 logs and 4 facilities with valid references, and setting up again gives the same tables |
| Store.DatabaseManager.constructor | database_manager.py:25-28 | the store keeps its path, and its tables are the file's tables after setup |
| Store.DatabaseManager.SetupDatabase | database_manager.py:30-123 | the three row-by-row batches leave the tables as `Seeded` of the tables before |
| Store.ExecuteQuery | database_manager.py:140-152 | returns the engine's rows on success and `[]` on an sqlite error; a non-empty result is always the engine's own rows |
| Store.SortedKeys | database_manager.py:193 | the storage order of a table: every key exactly once, ascending |
| Store.KeyOrderRows | database_manager.py:193 | a table's rows in its storage order: one row per stored entry, the entries taken by ascending key |
| Store.TableScan | database_manager.py:193 | `SELECT *` on one of the three tables returns one row per stored row; any other name is an error |
| Store.KeyOrderComplete | database_manager.py:193 | every row of a key-order listing is the row of some stored entry, and every stored entry's row is in it |
| Store.KeyOrderAscending | database_manager.py:193 | when each entry's row starts with its key, a key-order listing starts its rows with strictly ascending integers |
| Store.GetSampleData | database_manager.py:185-202 | the sample is a prefix of the table scan of length `min(limit, rows)`, or all rows for a negative limit; an unknown table gives `[]` |
| Store.Columns | database_manager.py:40-72 | the column names of each `CREATE TABLE` in declaration order, none for another name; ScanMatchesColumns ties them to the scans |
| Store.ScanMatchesColumns | database_manager.py:40-72 | a scan exists exactly for the created tables, and each row has one value per declared column |
| Store.EmployeeScanOrder | database_manager.py:193 | the employees scan is the key-order listing of the table: each row is a stored employee's row, each stored employee's row is in it, and the ids ascend strictly |
| Store.SecurityLogScanOrder | database_manager.py:193 | the same statement for the `security_logs` scan |
| Store.FacilityScanOrder | database_manager.py:193 | the same statement for the `facilities` scan |
| Store.FreshSamples | database_manager.py:185-202 | on a new file a sample of 3 employees, logs or facilities has 3 rows, and a limit above the facility count returns all 4 facilities |
| Store.FirstSampleIsMarcus | database_manager.py:185-202 | on a new file the first sampled employee is Marcus Steel |
| Game.Normalize | game_test.py:164 | definition of the menu choice: the typed line upper-cased, then stripped; MenuChoiceAnyCase proves what it accepts |
| Game.Dispatch | game_test.py:167-223 | definition of the branch taken, trying the five commands in the loop's order; DispatchExactly proves which choices select each |
| Game.IsBack | game_test.py:183 | definition: the stripped SQL line lower-cased is `back`; BackAnyCase proves any case and padding cancel |
| Game.DispatchExactly | game_test.py:167-223 | each command has its keyword and its digit, and a choice is invalid exactly when it is neither |
| Game.MenuChoiceAnyCase | game_test.py:164-167 | a menu word typed in any case with any whitespace around it normalises to the word and is recognised |
| Game.BackAnyCase | game_test.py:180-184 | `back` in any case with whitespace around it cancels the SQL prompt |
| Game.FormatCell | game_test.py:107 | a cell is exactly 12 characters: the first 12 of the text, or the whole text padded with spaces |
| Game.FormatCellIdempotent | game_test.py:107 | formatting a cell again changes nothing |
| Game.FormatCellRoundTrip | game_test.py:107 | `rstrip` recovers a text of at most 12 characters that does not end in whitespace |
| Game.FormatHeader | game_test.py:101 | definition of the header: each column name as a cell, joined by ` | `; LineWidth proves its width |
| Game.FormatRow | game_test.py:107 | definition of a printed row: `str` of each value as a cell, joined by ` | `; SampleListingShape proves it as wide as the header |
| Game.FormatRows | game_test.py:106-108 | the printed lines of a listing, one per sampled row, in order |
| Game.ListTable | game_test.py:91-110 | definition of one table's listing: "No data" for an empty sample, otherwise the header, a rule of dashes and the rows |
| Game.ShowSampleData | game_test.py:82-112 | one listing for each of the three tables in the order employees, security logs, facilities; SampleListingShape proves each listing's shape |
| Game.LineWidth | game_test.py:101-103 | a line of n cells is 12n + 3(n - 1) characters wide, so the rule under the header has that width |
| Game.SampleListingShape | game_test.py:82-112 | a table's listing is absent exactly when its sample is empty; otherwise it has one line per sampled row (at most 3), each as wide as the header |
| Game.Pause | game_test.py:169 | definition of `input("Press Enter to continue...")`: the pass shows its event and consumes one line, or the session ends without input |
| Game.QueryStep | game_test.py:175-186 | definition of the SQL prompt: `back` in any case or an empty line cancels; another line runs as a query; PauseSound and QueryStepSound prove every outcome sound |
| Game.RunQuery | game_test.py:186-207 | definition of running a typed statement: the session is accomplished when the rows are non-empty and pass the completion check, otherwise it pauses; RunQuerySound proves the event it shows sound |
| Game.Turn | game_test.py:158-232 | one pass of the loop: the briefing's KeyError for a mission other than 1, otherwise the branch the menu line selects; a pass that does not end the session moves forward by at least one input line |
| Game.Play | game_test.py:158-232 | definition of the whole session: passes of `Turn` until one ends it; PlaySound, EventsBounded and RunGame prove what it shows |
| Game.PlaySound | game_test.py:158-232 | every event of a session is sound, and the session is accomplished exactly when its last event is a solved query; no earlier event is one |
| Game.AccomplishedOnlyBySolvedQuery | game_test.py:186-200 | an accomplished session ends with a query whose rows are the engine's own non-empty rows and pass the completion check |
| Game.OtherMissionOnlyFails | game_test.py:44 | with a mission other than 1 active, the briefing lookup fails on every pass and the handler's pause takes one line, so the session is one `BriefingMissing` per remaining line plus one, ending when input runs out |
| Game.OtherMissionNeverAccomplished | game_test.py:158-232 | with a mission other than 1 active, no session is ever accomplished |
| Game.EventsBounded | game_test.py:158-232 | with mission 1 a session shows at most one event per input line; with another mission at most one more |
| Game.QuitStops | game_test.py:216-219 | with mission 1, QUIT or 5 ends the session at once, showing nothing |
| Game.InvalidSkipped | game_test.py:221-223 | with mission 1, an invalid choice is reported and the session goes on with the next line |
| Game.CancelledQueryRunsNothing | game_test.py:180-186 | with mission 1, `back` or an empty line at the SQL prompt runs nothing: the pass does not depend on the engine, and the session goes on at the next menu line |
| Game.WinningSession | game_test.py:175-200 | choosing ` query ` and typing the sample query, with an engine that returns Marcus Steel's row, wins at once |
| Game.HackerGame.constructor | game_test.py:9-14 | the game starts mission 1, incomplete, with a fresh store at the default path |
| Game.HackerGame.TakeTurn | game_test.py:164-223 | one pass reads the menu line, dispatches it, and equals `Turn`; `missionComplete` is set exactly when the pass is accomplished |
| Game.HackerGame.Terminal | game_test.py:175-207 | the SQL prompt equals `QueryStep`; `missionComplete` is set exactly when the query's rows pass the completion check |
| Game.HackerGame.RunGame | game_test.py:154-232 | the loop's events and ending are exactly `Play` on the typed lines; `missionComplete` ends true exactly when the session is accomplished |

## Left out

- Printing, screen clearing, the header and mission briefing, the success message and the Debug prints: the model records which screen a pass shows (an `Event`), not its text.
- `loading_animation`, `time.sleep` and `random.choice`: they only spend wall-clock time and print dots.
- `get_schema` and `show_schema`: a SCHEMA pass is modelled only as the `SchemaShown` event. The sample view takes its column names from the `CREATE TABLE` statements rather than introspecting the file; the two agree unless the player alters the tables.
- `cleanup` and `main`: neither file removal nor the teardown sequence is modelled.
- KeyboardInterrupt, and exceptions other than running out of input and the missing briefing: the model has no way to raise them.
- Store.ExecuteQuery: the SQL engine is an abstract parameter, so no property about what a particular statement returns is proved. In particular, it is not proved that `SELECT * FROM employees WHERE id=1` returns Marcus Steel's row on a fresh store.
- Store.ExecuteQuery: player statements do not change the modelled tables. Python's sqlite3 opens an implicit transaction only for a statement that starts with INSERT, UPDATE, DELETE or REPLACE, and `conn.close()` discards it uncommitted. Every other statement runs in autocommit and its changes persist: DDL such as `DROP TABLE employees`, and also DML behind a leading `WITH`, such as `WITH t AS (SELECT 1) DELETE FROM employees`. Neither kind of change is modelled.
- Store.ExecuteQuery: only `sqlite3.Error` is caught. Some older versions of Python's sqlite3 raise `sqlite3.Warning` for several statements at once, such as `SELECT 1; SELECT 2`. That exception is not an `sqlite3.Error`, so it escapes to the loop's `except Exception` handler, which prints it and pauses. The model treats it as an engine error and shows `QueryRan(q, [], false)` followed by a pause. The lines consumed and the mission state are the same; only the event differs.
- Store.Engine: the engine is a pure function of the tables and the statement text, so a statement whose answer varies from run to run, such as `SELECT random()` or `SELECT datetime('now')`, is not modelled.
- Store.DatabaseManager.SetupDatabase: an sqlite error during setup (and the partial state it leaves) is not modelled.
- Store.GetSampleData: the table name is not interpolated into SQL text. The three known names are scanned and any other name is an error, so SQL injection through the name is not modelled. sqlite also matches table names case-insensitively and knows further tables, so `EMPLOYEES` or `sqlite_master` would be answered, where the model reports an error. The only caller passes the three lower-case names.
- Store.TableScan: its own contract gives only each table's row count and which names are tables. The rows themselves, in ascending key order, are stated by EmployeeScanOrder, SecurityLogScanOrder and FacilityScanOrder.
- Text.Upper: `upper()` and `lower()` map ASCII letters only; Python's full Unicode case mapping, which can change a string's length, is not modelled.
- Values.ReprOf: text values are quoted with single quotes verbatim. Python's choice of double quotes and its escaping of special characters are not modelled. This can change the completion check's verdict. A text `"Marcus Steel\x0coffee addiction"`, with a form feed before `offee`, has the repr `'Marcus Steel\x0coffee addiction'`. That repr contains "coffee addiction" because the escape ends in `c`, so the program accepts such a row while `Mission.RowMatches` rejects it.
- Values.Value: REAL and BLOB values are not modelled. The seeded tables hold only INTEGER and TEXT, but a player query can return a REAL (`SELECT AVG(clearance_level) FROM employees`) or a BLOB (`SELECT x'00'`), and `Engine` cannot represent such a result.
- Values.Value: `IntVal` holds an unbounded integer. sqlite's INTEGER is a signed 64-bit value, so `IntVal` can hold numbers the engine never returns; nothing in the model depends on the bound.
