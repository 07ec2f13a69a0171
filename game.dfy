/** The game itself: the menu and SQL terminal of `run_game`, driven by the lines
    the player types, and the fixed-width sample tables it prints. */
module Game {
  import opened Text
  import opened Values
  import Store
  import Mission

  // ---------------------------------------------------------------------------
  // The menu

  datatype Command = Schema | Samples | Query | Debug | Quit | Invalid

  /** `input(...).upper().strip()`: the menu choice as the loop compares it. */
  function Normalize(line: string): string {
    Strip(Upper(line))
  }

  /** The branch of `run_game` a normalised choice takes, tried in the menu loop's order. */
  function Dispatch(choice: string): Command {
    if choice == "SCHEMA" || choice == "1" then Schema
    else if choice == "SAMPLES" || choice == "3" then Samples
    else if choice == "QUERY" || choice == "2" then Query
    else if choice == "DEBUG" || choice == "4" then Debug
    else if choice == "QUIT" || choice == "5" then Quit
    else Invalid
  }

  /** The words and digits the menu accepts. */
  const MenuWords: seq<string> := ["SCHEMA", "1", "SAMPLES", "3", "QUERY", "2", "DEBUG", "4", "QUIT", "5"]

  /** Each command has its keyword and its digit, and a choice is invalid exactly
      when it is none of them. */
  lemma DispatchExactly(choice: string)
    ensures Dispatch(choice) == Invalid <==> choice !in MenuWords
    ensures Dispatch("SCHEMA") == Dispatch("1") == Schema
    ensures Dispatch("QUERY") == Dispatch("2") == Query
    ensures Dispatch("SAMPLES") == Dispatch("3") == Samples
    ensures Dispatch("DEBUG") == Dispatch("4") == Debug
    ensures Dispatch("QUIT") == Dispatch("5") == Quit
  {
  }

  /** No menu word starts or ends with whitespace. */
  lemma MenuWordsUnpadded(w: string)
    requires w in MenuWords
    ensures w != [] && !IsSpace(w[0]) && !IsSpace(w[|w| - 1])
  {
  }

  /** A menu word typed in any case, with any whitespace around it, is recognised. */
  lemma MenuChoiceAnyCase(pre: string, word: string, post: string)
    requires AllSpace(pre) && AllSpace(post)
    requires Upper(word) in MenuWords
    ensures Normalize(pre + word + post) == Upper(word)
    ensures Dispatch(Normalize(pre + word + post)) != Invalid
  {
    UpperPieces(pre, word, post);
    MenuWordsUnpadded(Upper(word));
    StripUnique(pre, Upper(word), post);
    DispatchExactly(Upper(word));
  }

  /** `query.lower() == 'back'` on the stripped SQL prompt line. */
  predicate IsBack(query: string) {
    Lower(query) == "back"
  }

  /** `back` in any case, with any whitespace around it, leaves the SQL prompt. */
  lemma BackAnyCase(pre: string, word: string, post: string)
    requires AllSpace(pre) && AllSpace(post)
    requires Lower(word) == "back"
    ensures IsBack(Strip(pre + word + post))
  {
    assert LowerChar(word[0]) == 'b' && LowerChar(word[3]) == 'k';
    StripUnique(pre, word, post);
  }

  // ---------------------------------------------------------------------------
  // The sample tables

  const CellWidth := 12

  /** `c * n` in Python: `n` copies of the character `c`. */
  function Repeat(c: char, n: nat): (r: string)
    ensures |r| == n && forall k :: 0 <= k < n ==> r[k] == c
  {
    seq(n, _ => c)
  }

  /** `f"{s[:12]:<12}"`: the first 12 characters of `s`, padded with spaces to 12. */
  function FormatCell(s: string): (r: string)
    ensures |r| == CellWidth
    ensures |s| >= CellWidth ==> r == s[..CellWidth]
    ensures |s| < CellWidth ==> r[..|s|] == s && forall k :: |s| <= k < CellWidth ==> r[k] == ' '
  {
    var t := if |s| <= CellWidth then s else s[..CellWidth];
    assert (t + Repeat(' ', CellWidth - |t|))[..|t|] == t;
    t + Repeat(' ', CellWidth - |t|)
  }

  /** A cell is already formatted: formatting it again changes nothing. */
  lemma FormatCellIdempotent(s: string)
    ensures FormatCell(FormatCell(s)) == FormatCell(s)
  {
  }

  /** A short text that does not end in whitespace comes back from its cell by `rstrip`. */
  lemma FormatCellRoundTrip(s: string)
    requires |s| <= CellWidth
    requires s != [] ==> !IsSpace(s[|s| - 1])
    ensures StripRight(FormatCell(s)) == s
  {
    var r := FormatCell(s);
    assert r == s + r[|s|..];
    StripRightUnique(s, r[|s|..]);
  }

  function Cells(texts: seq<string>): (r: seq<string>)
    ensures |r| == |texts| && forall k :: 0 <= k < |r| ==> |r[k]| == CellWidth
  {
    seq(|texts|, k requires 0 <= k < |texts| => FormatCell(texts[k]))
  }

  /** `" | ".join(f"{col[:12]:<12}" for col in columns)`. */
  function FormatHeader(columns: seq<string>): string {
    Join(Cells(columns), " | ")
  }

  /** `" | ".join(f"{str(val)[:12]:<12}" for val in row)`. */
  function FormatRow(row: Row): string {
    Join(Cells(seq(|row|, k requires 0 <= k < |row| => StrOf(row[k]))), " | ")
  }

  /** The width of a line of `n >= 1` cells: 12 per cell and 3 per separator. */
  lemma LineWidth(texts: seq<string>)
    requires |texts| >= 1
    ensures |Join(Cells(texts), " | ")| == CellWidth * |texts| + 3 * (|texts| - 1)
  {
    JoinLength(Cells(texts), " | ", CellWidth);
  }

  /** What `show_sample_data` prints for one table: a header, a rule as wide as the
      header and one line per sampled row, or "No data available". */
  datatype TableListing =
    | Listing(table: string, header: string, rule: string, lines: seq<string>)
    | NoData(table: string)

  const SampleTables: seq<string> := ["employees", "security_logs", "facilities"]

  const SampleLimit := 3

  function ListTable(db: Store.Database, table: string): TableListing
    requires table in SampleTables
  {
    var rows := Store.GetSampleData(db, table, SampleLimit);
    if rows != [] then
      var header := FormatHeader(Store.Columns(table).value);
      Listing(table, header, Repeat('-', |header|), FormatRows(rows))
    else
      NoData(table)
  }

  /** The printed lines of a listing, one per row. */
  function FormatRows(rows: seq<Row>): seq<string>
  {
    seq(|rows|, i requires 0 <= i < |rows| => FormatRow(rows[i]))
  }

  /** `show_sample_data`: the first rows of each of the three tables. */
  function ShowSampleData(db: Store.Database): (r: seq<TableListing>)
    ensures |r| == |SampleTables|
  {
    seq(|SampleTables|, i requires 0 <= i < |SampleTables| => ListTable(db, SampleTables[i]))
  }

  /** Each listing is the table's sample: absent exactly when the sample is empty,
      otherwise one line per sampled row (at most 3), every line exactly as wide as
      the header, whose width is fixed by the number of columns. */
  lemma SampleListingShape(db: Store.Database, i: int)
    requires 0 <= i < |SampleTables|
    ensures var t := SampleTables[i];
            var l := ShowSampleData(db)[i];
            var rows := Store.GetSampleData(db, t, SampleLimit);
            var n := |Store.Columns(t).value|;
            && l.table == t
            && (l.Listing? <==> rows != [])
            && (l.Listing? ==>
                  && |l.lines| == |rows| <= SampleLimit
                  && |l.header| == CellWidth * n + 3 * (n - 1)
                  && |l.rule| == |l.header|
                  && forall k :: 0 <= k < |l.lines| ==> |l.lines[k]| == |l.header|)
  {
    var t := SampleTables[i];
    assert ShowSampleData(db)[i] == ListTable(db, t);
    Store.ScanMatchesColumns(db, t);
    LineWidth(Store.Columns(t).value);
    ListingLinesWidth(db, t);
  }

  /** Every printed row of a listing is as wide as its header. */
  lemma ListingLinesWidth(db: Store.Database, t: string)
    requires t in SampleTables
    ensures var l := ListTable(db, t);
            l.Listing? ==> forall k :: 0 <= k < |l.lines| ==> |l.lines[k]| == |l.header|
  {
    var rows := Store.GetSampleData(db, t, SampleLimit);
    var columns := Store.Columns(t).value;
    SampleRowsWidth(db, t);
    LineWidth(columns);
    RowsWidth(rows, |columns|);
  }

  /** Each sampled row has one value per column of its table. */
  lemma SampleRowsWidth(db: Store.Database, t: string)
    requires t in SampleTables
    ensures var rows := Store.GetSampleData(db, t, SampleLimit);
            |Store.Columns(t).value| >= 1 && forall k :: 0 <= k < |rows| ==> |rows[k]| == |Store.Columns(t).value|
  {
    var rows := Store.GetSampleData(db, t, SampleLimit);
    Store.ScanMatchesColumns(db, t);
    var all := Store.TableScan(db, t).value;
    forall k | 0 <= k < |rows| ensures |rows[k]| == |Store.Columns(t).value| {
      assert rows[k] == all[k];
    }
  }

  /** Rows of `n >= 1` values each print `12n + 3(n - 1)` characters wide. */
  lemma RowsWidth(rows: seq<Row>, n: nat)
    requires n >= 1 && forall k :: 0 <= k < |rows| ==> |rows[k]| == n
    ensures |FormatRows(rows)| == |rows|
    ensures forall k :: 0 <= k < |rows| ==> |FormatRows(rows)[k]| == CellWidth * n + 3 * (n - 1)
  {
    forall k | 0 <= k < |rows| ensures |FormatRows(rows)[k]| == CellWidth * n + 3 * (n - 1) {
      var row := rows[k];
      assert FormatRows(rows)[k] == FormatRow(row);
      LineWidth(seq(|row|, j requires 0 <= j < |row| => StrOf(row[j])));
    }
  }

  // ---------------------------------------------------------------------------
  // The game loop

  /** What one pass of the loop shows the player. */
  datatype Event =
    | SchemaShown
    | SamplesShown(listings: seq<TableListing>)
    | QueryCancelled
    | QueryEmpty
    | QueryRan(query: string, results: seq<Row>, solved: bool)
    | DebugShown(mission: int, complete: bool, path: string)
    | InvalidCommand(choice: string)
    | BriefingMissing(mission: int)

  /** How `run_game` returns: the mission is accomplished, the player quits, or
      `input()` finds no more lines (its EOFError escapes the loop's handler,
      whose own `input()` fails the same way). */
  datatype Ending = Accomplished | Quitted | InputExhausted

  datatype Run = Run(events: seq<Event>, ending: Ending)

  /** What the loop reads but never changes: the active mission, the store's path
      and tables, and the engine that answers the player's SQL. */
  datatype Context = Context(mission: int, path: string, db: Store.Database, engine: Store.Engine)

  /** One pass of the loop: it shows an event and resumes at line `pos`, or it ends. */
  datatype Step = Next(event: Event, pos: nat) | Stop(last: seq<Event>, ending: Ending)

  /** `input("Press Enter to continue...")` after showing `e`. */
  function Pause(e: Event, lines: seq<string>, pos: nat): Step {
    if pos < |lines| then Next(e, pos + 1) else Stop([e], InputExhausted)
  }

  /** A non-empty statement typed at the SQL prompt: the rows `execute_query`
      returns, checked for completion when there are any; the loop ends if they pass and otherwise
      pauses before the next pass. */
  function RunQuery(ctx: Context, query: string, lines: seq<string>, pos: nat): Step {
    var results := Store.ExecuteQuery(ctx.engine, ctx.db, query);
    if results != [] && Mission.MissionSolved(ctx.mission, query, results) then
      Stop([QueryRan(query, results, true)], Accomplished)
    else
      Pause(QueryRan(query, results, false), lines, pos)
  }

  /** The SQL terminal, reading its line at `pos`. */
  function QueryStep(ctx: Context, lines: seq<string>, pos: nat): Step
    requires pos <= |lines|
  {
    if pos == |lines| then Stop([], InputExhausted)
    else
      var query := Strip(lines[pos]);
      if IsBack(query) then Next(QueryCancelled, pos + 1)
      else if query == [] then Next(QueryEmpty, pos + 1)
      else RunQuery(ctx, query, lines, pos + 1)
  }

  /** One pass of `while not self.mission_complete`, reading the menu line at `pos`.
      The briefing shown before the menu exists for mission 1 only: for any other
      mission its lookup raises KeyError before the menu line is read, and the
      `except Exception` handler then waits for Enter. */
  function Turn(ctx: Context, lines: seq<string>, pos: nat): (s: Step)
    requires pos <= |lines|
    ensures s.Next? ==> pos < s.pos <= |lines|
  {
    if ctx.mission != 1 then Pause(BriefingMissing(ctx.mission), lines, pos)
    else if pos == |lines| then Stop([], InputExhausted)
    else
      var choice := Normalize(lines[pos]);
      match Dispatch(choice)
      case Schema => Pause(SchemaShown, lines, pos + 1)
      case Samples => Pause(SamplesShown(ShowSampleData(ctx.db)), lines, pos + 1)
      case Query => QueryStep(ctx, lines, pos + 1)
      case Debug => Pause(DebugShown(ctx.mission, false, ctx.path), lines, pos + 1)
      case Quit => Stop([], Quitted)
      case Invalid => Next(InvalidCommand(choice), pos + 1)
  }

  function Prepend(events: seq<Event>, r: Run): Run {
    Run(events + r.events, r.ending)
  }

  /** The whole session from line `pos` on. */
  function Play(ctx: Context, lines: seq<string>, pos: nat): Run
    requires pos <= |lines|
    decreases |lines| - pos
  {
    match Turn(ctx, lines, pos)
    case Next(e, p) => Prepend([e], Play(ctx, lines, p))
    case Stop(last, ending) => Run(last, ending)
  }

  /** What any shown event tells about the loop: a query that ran was non-empty,
      without whitespace at either end, and not `back`, its rows are what `execute_query` returned and it
      counts as solved exactly when those rows are non-empty and pass the completion check;
      the debug screen shows the mission, an incomplete state and the store's path. */
  predicate Sound(ctx: Context, e: Event) {
    match e
    case QueryRan(q, rs, solved) =>
      && q != [] && !IsSpace(q[0]) && !IsSpace(q[|q| - 1]) && !IsBack(q)
      && rs == Store.ExecuteQuery(ctx.engine, ctx.db, q)
      && solved == (rs != [] && Mission.MissionSolved(ctx.mission, q, rs))
    case SamplesShown(listings) => listings == ShowSampleData(ctx.db)
    case DebugShown(m, complete, path) => m == ctx.mission && !complete && path == ctx.path
    case InvalidCommand(choice) => Dispatch(choice) == Invalid
    case BriefingMissing(m) => m == ctx.mission && m != 1
    case _ => true
  }

  predicate Solved(e: Event) {
    e.QueryRan? && e.solved
  }

  /** A pass of the loop shows at most one event, which is sound; it ends the
      session as accomplished exactly when that event is a solved query. */
  predicate StepSound(ctx: Context, s: Step) {
    match s
    case Next(e, _) => Sound(ctx, e) && !Solved(e)
    case Stop(last, ending) =>
      && |last| <= 1
      && (forall k :: 0 <= k < |last| ==> Sound(ctx, last[k]))
      && (ending == Accomplished <==> last != [] && Solved(last[0]))
  }

  lemma PauseSound(ctx: Context, e: Event, lines: seq<string>, pos: nat)
    requires Sound(ctx, e) && !Solved(e)
    ensures StepSound(ctx, Pause(e, lines, pos))
  {
  }

  lemma RunQuerySound(ctx: Context, query: string, lines: seq<string>, pos: nat)
    requires query != [] && !IsSpace(query[0]) && !IsSpace(query[|query| - 1]) && !IsBack(query)
    ensures StepSound(ctx, RunQuery(ctx, query, lines, pos))
  {
    var rs := Store.ExecuteQuery(ctx.engine, ctx.db, query);
    var solved := rs != [] && Mission.MissionSolved(ctx.mission, query, rs);
    var e := QueryRan(query, rs, solved);
    assert Sound(ctx, e);
    if solved {
      assert RunQuery(ctx, query, lines, pos) == Stop([e], Accomplished);
    } else {
      assert RunQuery(ctx, query, lines, pos) == Pause(e, lines, pos);
      PauseSound(ctx, e, lines, pos);
    }
  }

  lemma QueryStepSound(ctx: Context, lines: seq<string>, pos: nat)
    requires pos <= |lines|
    ensures StepSound(ctx, QueryStep(ctx, lines, pos))
  {
    if pos < |lines| {
      var q := Strip(lines[pos]);
      if !IsBack(q) && q != [] {
        StripShape(lines[pos]);
        RunQuerySound(ctx, q, lines, pos + 1);
      }
    }
  }

  lemma TurnSound(ctx: Context, lines: seq<string>, pos: nat)
    requires pos <= |lines|
    ensures StepSound(ctx, Turn(ctx, lines, pos))
  {
    if pos < |lines| && Dispatch(Normalize(lines[pos])) == Query {
      QueryStepSound(ctx, lines, pos + 1);
    }
  }

  /** Every event of a session is sound, and the session is accomplished exactly
      when its last event is a solved query; no earlier event is one. */
  predicate RunSound(ctx: Context, r: Run) {
    && (forall k :: 0 <= k < |r.events| ==> Sound(ctx, r.events[k]))
    && (forall k :: 0 <= k < |r.events| - 1 ==> !Solved(r.events[k]))
    && (r.ending == Accomplished <==> r.events != [] && Solved(r.events[|r.events| - 1]))
  }

  lemma PrependSound(ctx: Context, e: Event, rest: Run)
    requires Sound(ctx, e) && !Solved(e) && RunSound(ctx, rest)
    ensures RunSound(ctx, Prepend([e], rest))
  {
    var r := Prepend([e], rest);
    forall k | 0 <= k < |r.events| ensures Sound(ctx, r.events[k]) {
      if k > 0 { assert r.events[k] == rest.events[k - 1]; }
    }
    forall k | 0 <= k < |r.events| - 1 ensures !Solved(r.events[k]) {
      if k > 0 { assert r.events[k] == rest.events[k - 1]; }
    }
    if rest.events != [] {
      assert r.events[|r.events| - 1] == rest.events[|rest.events| - 1];
    }
  }

  lemma StopSound(ctx: Context, s: Step)
    requires s.Stop? && StepSound(ctx, s)
    ensures RunSound(ctx, Run(s.last, s.ending))
  {
    if s.last != [] {
      assert s.last[|s.last| - 1] == s.last[0];
    }
  }

  lemma {:induction false} PlaySound(ctx: Context, lines: seq<string>, pos: nat)
    requires pos <= |lines|
    ensures RunSound(ctx, Play(ctx, lines, pos))
    decreases |lines| - pos
  {
    var s := Turn(ctx, lines, pos);
    TurnSound(ctx, lines, pos);
    if s.Next? {
      PlaySound(ctx, lines, s.pos);
      PrependSound(ctx, s.event, Play(ctx, lines, s.pos));
    } else {
      StopSound(ctx, s);
    }
  }

  /** `mission_complete` becomes true only through a query whose non-empty rows,
      as `execute_query` returned them, pass the completion check; the loop then ends. */
  lemma AccomplishedOnlyBySolvedQuery(ctx: Context, lines: seq<string>, pos: nat)
    requires pos <= |lines|
    requires Play(ctx, lines, pos).ending == Accomplished
    ensures var es := Play(ctx, lines, pos).events;
            && es != [] && es[|es| - 1].QueryRan?
            && var e := es[|es| - 1];
               && e.results != []
               && e.results == Store.ExecuteQuery(ctx.engine, ctx.db, e.query)
               && ctx.engine(ctx.db, e.query) == Store.Rows(e.results)
               && Mission.MissionSolved(ctx.mission, e.query, e.results)
  {
    PlaySound(ctx, lines, pos);
    var es := Play(ctx, lines, pos).events;
    var e := es[|es| - 1];
    assert Sound(ctx, e) && Solved(e);
  }

  /** With any mission other than 1 active, no session is ever accomplished. */
  lemma OtherMissionNeverAccomplished(ctx: Context, lines: seq<string>, pos: nat)
    requires pos <= |lines|
    requires ctx.mission != 1
    ensures Play(ctx, lines, pos).ending != Accomplished
  {
    OtherMissionOnlyFails(ctx, lines, pos);
  }

  /** With any mission other than 1 active, every pass fails on the briefing and
      uses up one line as the Enter press, until the input runs out. */
  lemma {:induction false} OtherMissionOnlyFails(ctx: Context, lines: seq<string>, pos: nat)
    requires pos <= |lines|
    requires ctx.mission != 1
    ensures Play(ctx, lines, pos)
              == Run(seq(|lines| - pos + 1, _ => BriefingMissing(ctx.mission)), InputExhausted)
    decreases |lines| - pos
  {
    var e := BriefingMissing(ctx.mission);
    if pos < |lines| {
      OtherMissionOnlyFails(ctx, lines, pos + 1);
      assert Play(ctx, lines, pos) == Prepend([e], Play(ctx, lines, pos + 1));
      assert [e] + seq(|lines| - pos, _ => e) == seq(|lines| - pos + 1, _ => e);
    }
  }

  /** A pass that ends the session shows an event only if it read a line, except
      the briefing failure, which shows its error before reading. */
  lemma TurnStopBounded(ctx: Context, lines: seq<string>, pos: nat)
    requires pos <= |lines|
    ensures Turn(ctx, lines, pos).Stop? ==>
              |Turn(ctx, lines, pos).last| <= |lines| - pos + (if ctx.mission == 1 then 0 else 1)
  {
    TurnSound(ctx, lines, pos);
  }

  /** With mission 1 every shown event consumes at least one input line; with
      another mission, only the last briefing failure consumes none. */
  lemma {:induction false} EventsBounded(ctx: Context, lines: seq<string>, pos: nat)
    requires pos <= |lines|
    ensures |Play(ctx, lines, pos).events| <= |lines| - pos + (if ctx.mission == 1 then 0 else 1)
    decreases |lines| - pos
  {
    var s := Turn(ctx, lines, pos);
    if s.Next? {
      EventsBounded(ctx, lines, s.pos);
      assert Play(ctx, lines, pos) == Prepend([s.event], Play(ctx, lines, s.pos));
    } else {
      TurnStopBounded(ctx, lines, pos);
      assert Play(ctx, lines, pos) == Run(s.last, s.ending);
    }
  }

  /** QUIT (or 5) ends the session at once. */
  lemma QuitStops(ctx: Context, lines: seq<string>, pos: nat)
    requires ctx.mission == 1
    requires pos < |lines| && Dispatch(Normalize(lines[pos])) == Quit
    ensures Play(ctx, lines, pos) == Run([], Quitted)
  {
  }

  /** An invalid choice is reported, changes nothing the loop reads, and the
      session goes on with the next line. */
  lemma InvalidSkipped(ctx: Context, lines: seq<string>, pos: nat)
    requires ctx.mission == 1
    requires pos < |lines| && Dispatch(Normalize(lines[pos])) == Invalid
    ensures Play(ctx, lines, pos) == Prepend([InvalidCommand(Normalize(lines[pos]))], Play(ctx, lines, pos + 1))
  {
  }

  /** `back` or an empty line at the SQL prompt runs nothing: the pass does not
      depend on the engine at all, and the session goes on at the next line. */
  lemma CancelledQueryRunsNothing(ctx: Context, other: Store.Engine, lines: seq<string>, pos: nat)
    requires ctx.mission == 1
    requires pos + 1 < |lines| && Dispatch(Normalize(lines[pos])) == Query
    requires IsBack(Strip(lines[pos + 1])) || Strip(lines[pos + 1]) == []
    ensures Turn(ctx, lines, pos) == Turn(ctx.(engine := other), lines, pos)
    ensures Turn(ctx, lines, pos).Next? && Turn(ctx, lines, pos).pos == pos + 2
    ensures !Turn(ctx, lines, pos).event.QueryRan?
  {
  }

  // ---------------------------------------------------------------------------
  // A winning session

  /** An engine answering every statement with Marcus Steel's name and weakness. */
  function MarcusEngine(): Store.Engine {
    (db: Store.Database, q: string) => Store.Rows([[TextVal("Marcus Steel"), TextVal("coffee addiction")]])
  }

  const WinningLines: seq<string> := [" query ", Mission.SampleWinningQuery]

  const WinningRows: seq<Row> := [[TextVal("Marcus Steel"), TextVal("coffee addiction")]]

  lemma WinningQueryStep(ctx: Context)
    requires ctx.mission == 1 && ctx.engine == MarcusEngine()
    ensures RunQuery(ctx, Mission.SampleWinningQuery, WinningLines, 2)
              == Stop([QueryRan(Mission.SampleWinningQuery, WinningRows, true)], Accomplished)
  {
    Mission.WinningQueryExample();
  }

  lemma WinningPrompt(ctx: Context)
    ensures QueryStep(ctx, WinningLines, 1) == RunQuery(ctx, Mission.SampleWinningQuery, WinningLines, 2)
  {
    var q := Mission.SampleWinningQuery;
    assert WinningLines[1] == q;
    assert q[0] == 'S' && q[|q| - 1] == '\'';
    StripUnique([], q, []);
    assert [] + q + [] == q;
    assert |Lower(q)| == |q| != 4;
  }

  lemma WinningMenu(ctx: Context)
    requires ctx.mission == 1
    ensures Turn(ctx, WinningLines, 0) == QueryStep(ctx, WinningLines, 1)
  {
    assert WinningLines[0] == " " + "query" + " ";
    assert Upper("query") == "QUERY";
    MenuChoiceAnyCase(" ", "query", " ");
  }

  /** Choosing QUERY and typing the sample query wins at once. */
  lemma WinningSession(path: string, db: Store.Database)
    ensures Play(Context(1, path, db, MarcusEngine()), WinningLines, 0)
              == Run([QueryRan(Mission.SampleWinningQuery, WinningRows, true)], Accomplished)
  {
    var ctx := Context(1, path, db, MarcusEngine());
    WinningMenu(ctx);
    WinningPrompt(ctx);
    WinningQueryStep(ctx);
  }

  // ---------------------------------------------------------------------------
  // One pass at a time, as the loop takes it

  lemma TurnCases(ctx: Context, lines: seq<string>, pos: nat)
    requires ctx.mission == 1 && pos < |lines|
    ensures var c := Normalize(lines[pos]);
            && (Dispatch(c) == Schema ==> Turn(ctx, lines, pos) == Pause(SchemaShown, lines, pos + 1))
            && (Dispatch(c) == Samples ==> Turn(ctx, lines, pos) == Pause(SamplesShown(ShowSampleData(ctx.db)), lines, pos + 1))
            && (Dispatch(c) == Query ==> Turn(ctx, lines, pos) == QueryStep(ctx, lines, pos + 1))
            && (Dispatch(c) == Debug ==> Turn(ctx, lines, pos) == Pause(DebugShown(ctx.mission, false, ctx.path), lines, pos + 1))
            && (Dispatch(c) == Quit ==> Turn(ctx, lines, pos) == Stop([], Quitted))
            && (Dispatch(c) == Invalid ==> Turn(ctx, lines, pos) == Next(InvalidCommand(c), pos + 1))
  {
  }

  lemma QueryCases(ctx: Context, lines: seq<string>, pos: nat)
    requires pos < |lines|
    ensures var q := Strip(lines[pos]);
            && (IsBack(q) ==> QueryStep(ctx, lines, pos) == Next(QueryCancelled, pos + 1))
            && (!IsBack(q) && q == [] ==> QueryStep(ctx, lines, pos) == Next(QueryEmpty, pos + 1))
            && (!IsBack(q) && q != [] ==> QueryStep(ctx, lines, pos) == RunQuery(ctx, q, lines, pos + 1))
  {
  }

  lemma Advance(ctx: Context, lines: seq<string>, start: nat, before: seq<Event>, e: Event, next: nat)
    requires start <= |lines| && Turn(ctx, lines, start) == Next(e, next)
    requires Play(ctx, lines, 0) == Prepend(before, Play(ctx, lines, start))
    ensures Play(ctx, lines, 0) == Prepend(before + [e], Play(ctx, lines, next))
  {
    var rest := Play(ctx, lines, next);
    assert Play(ctx, lines, start) == Prepend([e], rest);
    assert before + ([e] + rest.events) == before + [e] + rest.events;
  }

  lemma Finish(ctx: Context, lines: seq<string>, start: nat, before: seq<Event>, last: seq<Event>, ending: Ending)
    requires start <= |lines| && Turn(ctx, lines, start) == Stop(last, ending)
    requires Play(ctx, lines, 0) == Prepend(before, Play(ctx, lines, start))
    ensures Play(ctx, lines, 0) == Run(before + last, ending)
  {
  }

  // ---------------------------------------------------------------------------
  // The game object

  /** `SQLHackerGame`: the store, the active mission and whether it is complete. */
  class HackerGame {
    const dbManager: Store.DatabaseManager
    var currentMission: int
    var missionComplete: bool

    /** `SQLHackerGame()`: sets up the store at its default path over the file's
        existing tables and starts mission 1. */
    constructor (existing: Store.Database)
      ensures fresh(dbManager)
      ensures dbManager.dbPath == Store.DefaultPath && dbManager.tables == Store.Seeded(existing)
      ensures currentMission == 1 && !missionComplete
    {
      dbManager := new Store.DatabaseManager(Store.DefaultPath, existing);
      currentMission := 1;
      missionComplete := false;
    }

    /** The session `run_game` plays on the lines the player types, with `engine`
        answering the player's SQL. */
    function Session(lines: seq<string>, engine: Store.Engine): Run
      reads this`currentMission, dbManager`tables
    {
      Play(Context(currentMission, dbManager.dbPath, dbManager.tables, engine), lines, 0)
    }

    /** One pass of `run_game`'s loop, reading the menu line at `pos` and, for
        QUERY, the statement after it; a passing query completes the mission.
        With no briefing for the active mission, the pass only waits for Enter. */
    method TakeTurn(ctx: Context, lines: seq<string>, pos: nat) returns (step: Step)
      requires pos <= |lines| && !missionComplete
      requires ctx.mission == currentMission && ctx.path == dbManager.dbPath && ctx.db == dbManager.tables
      modifies this`missionComplete
      ensures step == Turn(ctx, lines, pos)
      ensures missionComplete <==> step.Stop? && step.ending == Accomplished
    {
      if currentMission != 1 {
        var e := BriefingMissing(currentMission);
        if pos == |lines| {
          return Stop([e], InputExhausted);
        }
        return Next(e, pos + 1);
      }
      if pos == |lines| {
        return Stop([], InputExhausted);
      }
      var choice := Normalize(lines[pos]);
      TurnCases(ctx, lines, pos);
      var command := Dispatch(choice);
      if command == Schema {
        if pos + 1 == |lines| {
          return Stop([SchemaShown], InputExhausted);
        }
        return Next(SchemaShown, pos + 2);
      } else if command == Samples {
        var e := SamplesShown(ShowSampleData(dbManager.tables));
        if pos + 1 == |lines| {
          return Stop([e], InputExhausted);
        }
        return Next(e, pos + 2);
      } else if command == Query {
        step := Terminal(ctx, lines, pos + 1);
      } else if command == Debug {
        var e := DebugShown(currentMission, missionComplete, dbManager.dbPath);
        if pos + 1 == |lines| {
          return Stop([e], InputExhausted);
        }
        return Next(e, pos + 2);
      } else if command == Quit {
        return Stop([], Quitted);
      } else {
        return Next(InvalidCommand(choice), pos + 1);
      }
    }

    /** The SQL terminal: `back` and an empty line return to the menu; any other
        statement runs, and its rows, when there are any, are checked for completion. */
    method Terminal(ctx: Context, lines: seq<string>, pos: nat) returns (step: Step)
      requires pos <= |lines| && !missionComplete
      requires ctx.mission == currentMission && ctx.db == dbManager.tables
      modifies this`missionComplete
      ensures step == QueryStep(ctx, lines, pos)
      ensures missionComplete <==> step.Stop? && step.ending == Accomplished
    {
      if pos == |lines| {
        return Stop([], InputExhausted);
      }
      QueryCases(ctx, lines, pos);
      var query := Strip(lines[pos]);
      if IsBack(query) {
        return Next(QueryCancelled, pos + 1);
      }
      if query == [] {
        return Next(QueryEmpty, pos + 1);
      }
      var results := Store.ExecuteQuery(ctx.engine, dbManager.tables, query);
      if results != [] {
        var solved := Mission.CheckMissionCompletion(currentMission, query, results);
        if solved {
          missionComplete := true;
          return Stop([QueryRan(query, results, true)], Accomplished);
        }
      }
      var e := QueryRan(query, results, false);
      if pos + 1 == |lines| {
        return Stop([e], InputExhausted);
      }
      return Next(e, pos + 2);
    }

    /** `run_game`: the loop over menu choices until the mission is complete, the
        player quits or the input runs out. */
    method RunGame(lines: seq<string>, engine: Store.Engine) returns (events: seq<Event>, ending: Ending)
      modifies this`missionComplete
      ensures old(missionComplete) ==> events == [] && ending == Accomplished && missionComplete
      ensures !old(missionComplete) ==> Run(events, ending) == Session(lines, engine)
      ensures missionComplete <==> ending == Accomplished
    {
      var ctx := Context(currentMission, dbManager.dbPath, dbManager.tables, engine);
      var pos := 0;
      events := [];
      ending := Accomplished;
      while !missionComplete
        invariant pos <= |lines|
        invariant ending == Accomplished
        invariant missionComplete <==> old(missionComplete)
        invariant old(missionComplete) ==> events == []
        invariant !missionComplete ==> Play(ctx, lines, 0) == Prepend(events, Play(ctx, lines, pos))
        decreases |lines| - pos
      {
        var step := TakeTurn(ctx, lines, pos);
        match step
        case Next(e, next) =>
          Advance(ctx, lines, pos, events, e, next);
          events := events + [e];
          pos := next;
        case Stop(last, end) =>
          Finish(ctx, lines, pos, events, last, end);
          events := events + last;
          ending := end;
          break;
      }
    }
  }
}
