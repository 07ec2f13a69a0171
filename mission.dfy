/** The completion check of mission 1, "find the guard on duty at 1 AM and his weakness":
    a naive substring check on the lower-cased query text and on the printed
    result rows. */
module Mission {
  import opened Text
  import opened Values
  import Store

  /** The time indicators of which the query must mention at least one. */
  const TimeIndicators: seq<string> := ["01:00", "1:00", "shift", "time"]

  /** `any(t in query_lower for t in [...])`. */
  predicate HasTimeCondition(queryLower: string) {
    exists k :: 0 <= k < |TimeIndicators| && Contains(queryLower, TimeIndicators[k])
  }

  /** A result row names the right guard and his weakness, case-sensitively. */
  predicate RowMatches(row: Row) {
    Contains(RowRepr(row), "Marcus Steel") && Contains(RowRepr(row), "coffee addiction")
  }

  /** The win condition: mission 1 is active, the lower-cased query mentions a time
      indicator and "weakness", and some returned row names Marcus Steel and his
      coffee addiction. */
  predicate MissionSolved(currentMission: int, query: string, results: seq<Row>) {
    var queryLower := Lower(query);
    && currentMission == 1
    && HasTimeCondition(queryLower)
    && Contains(queryLower, "weakness")
    && exists k :: 0 <= k < |results| && RowMatches(results[k])
  }

  /** `check_mission_completion`: the keyword checks, then the scan of the rows. */
  method CheckMissionCompletion(currentMission: int, query: string, results: seq<Row>) returns (complete: bool)
    ensures complete == MissionSolved(currentMission, query, results)
  {
    if currentMission == 1 {
      var queryLower := Lower(query);
      var hasTimeCondition := HasTimeCondition(queryLower);
      var hasWeakness := Contains(queryLower, "weakness");
      if hasTimeCondition && hasWeakness {
        complete := FindGuardRow(results);
        return;
      }
    }
    return false;
  }

  /** The `for result in results` loop of the completion check, which stops at the first
      row naming Marcus Steel and his coffee addiction. */
  method FindGuardRow(results: seq<Row>) returns (found: bool)
    ensures found <==> exists k :: 0 <= k < |results| && RowMatches(results[k])
  {
    var i := 0;
    while i < |results|
      invariant 0 <= i <= |results|
      invariant forall k :: 0 <= k < i ==> !RowMatches(results[k])
    {
      var resultStr := RowRepr(results[i]);
      if Contains(resultStr, "Marcus Steel") && Contains(resultStr, "coffee addiction") {
        assert RowMatches(results[i]);
        return true;
      }
      i := i + 1;
    }
    return false;
  }

  /** Since "01:00" contains "1:00", the time check is the same without "01:00". */
  lemma TimeConditionWithoutLeadingZero(queryLower: string)
    ensures HasTimeCondition(queryLower) <==>
              Contains(queryLower, "1:00") || Contains(queryLower, "shift") || Contains(queryLower, "time")
  {
    if Contains(queryLower, "01:00") {
      assert OccursAt("01:00", "1:00", 1);
      ContainsTransitive(queryLower, "01:00", "1:00");
    }
    if Contains(queryLower, "1:00") {
      assert Contains(queryLower, TimeIndicators[1]);
    }
    if Contains(queryLower, "shift") {
      assert Contains(queryLower, TimeIndicators[2]);
    }
    if Contains(queryLower, "time") {
      assert Contains(queryLower, TimeIndicators[3]);
    }
  }

  /** What a completed mission implies, condition by condition, and that together
      they are also sufficient. */
  lemma SolvedExactly(currentMission: int, query: string, results: seq<Row>)
    ensures MissionSolved(currentMission, query, results) <==>
              && currentMission == 1
              && (Contains(Lower(query), "1:00") || Contains(Lower(query), "shift") || Contains(Lower(query), "time"))
              && Contains(Lower(query), "weakness")
              && exists k :: 0 <= k < |results| && RowMatches(results[k])
  {
    TimeConditionWithoutLeadingZero(Lower(query));
  }

  /** Any mission other than 1 is never complete, and no rows means no completion. */
  lemma NeverSolved(currentMission: int, query: string, results: seq<Row>)
    requires currentMission != 1 || results == []
    ensures !MissionSolved(currentMission, query, results)
  {
  }

  /** More rows never undo a pass: the check only asks that some row matches. */
  lemma SolvedMonotone(currentMission: int, query: string, results: seq<Row>, more: seq<Row>)
    requires MissionSolved(currentMission, query, results)
    requires forall k :: 0 <= k < |results| ==> results[k] in more
    ensures MissionSolved(currentMission, query, more)
  {
    var k :| 0 <= k < |results| && RowMatches(results[k]);
    var j :| 0 <= j < |more| && more[j] == results[k];
  }

  /** Upper and lower case in the query do not matter. */
  lemma QueryCaseInsensitive(currentMission: int, query: string, results: seq<Row>)
    ensures MissionSolved(currentMission, Upper(query), results) == MissionSolved(currentMission, query, results)
    ensures MissionSolved(currentMission, Lower(query), results) == MissionSolved(currentMission, query, results)
  {
    assert Lower(Upper(query)) == Lower(query);
    assert Lower(Lower(query)) == Lower(query);
  }

  /** A row holding the text values "Marcus Steel" and "coffee addiction" matches,
      whatever else it holds; the seeded employee 1 is such a row. */
  lemma MatchingRow(row: Row, i: int, j: int)
    requires 0 <= i < |row| && 0 <= j < |row|
    requires row[i] == TextVal("Marcus Steel") && row[j] == TextVal("coffee addiction")
    ensures RowMatches(row)
  {
    RowReprShowsValue(row, i);
    RowReprShowsValue(row, j);
  }

  lemma MarcusSteelRowMatches()
    ensures RowMatches(Store.EmployeeRow(Store.MarcusSteel))
  {
    MatchingRow(Store.EmployeeRow(Store.MarcusSteel), 1, 6);
  }

  /** The row check is case-sensitive, unlike the query check. */
  lemma RowMatchCaseSensitive()
    ensures !RowMatches([TextVal("marcus steel"), TextVal("coffee addiction")])
  {
    var r := RowRepr([TextVal("marcus steel"), TextVal("coffee addiction")]);
    if Contains(r, "Marcus Steel") {
      ContainsChar(r, "Marcus Steel", 0);
      PairReprChar("marcus steel", "coffee addiction", 'M');
      assert false;
    }
  }

  /** A sample winning query, written in pieces so that its keywords can be
      located. */
  const SampleWinningQuery :=
    "SELECT name, " + "weakness" + " FROM employees WHERE " + "shift" + "_start <= '01:00' AND shift_end >= '01:00'"

  /** The sample query passes both keyword checks. */
  lemma SampleQueryKeywords()
    ensures HasTimeCondition(Lower(SampleWinningQuery)) && Contains(Lower(SampleWinningQuery), "weakness")
  {
    assert Lower("weakness") == "weakness" && Lower("shift") == "shift";
    LowerKeepsPiece("SELECT name, ", "weakness",
                    " FROM employees WHERE " + "shift" + "_start <= '01:00' AND shift_end >= '01:00'");
    assert SampleWinningQuery == "SELECT name, " + "weakness" +
                                 (" FROM employees WHERE " + "shift" + "_start <= '01:00' AND shift_end >= '01:00'");
    LowerKeepsPiece("SELECT name, " + "weakness" + " FROM employees WHERE ", "shift",
                    "_start <= '01:00' AND shift_end >= '01:00'");
    assert Contains(Lower(SampleWinningQuery), TimeIndicators[2]);
  }

  /** A sample winning query: with Marcus Steel's row it passes, with
      another employee's row it fails. */
  lemma WinningQueryExample()
    ensures MissionSolved(1, SampleWinningQuery, [[TextVal("Marcus Steel"), TextVal("coffee addiction")]])
    ensures !MissionSolved(1, SampleWinningQuery, [[TextVal("Sarah Chen"), TextVal("fear of spiders")]])
  {
    SampleQueryKeywords();
    var win := [TextVal("Marcus Steel"), TextVal("coffee addiction")];
    MatchingRow(win, 0, 1);
    assert [win][0] == win;
    var other := [TextVal("Sarah Chen"), TextVal("fear of spiders")];
    var r := RowRepr(other);
    if Contains(r, "Marcus Steel") {
      ContainsChar(r, "Marcus Steel", 0);
      PairReprChar("Sarah Chen", "fear of spiders", 'M');
      assert false;
    }
    assert [other][0] == other;
  }

  const IdQuery := "SELECT * FROM employees WHERE id=1"

  /** The lower-cased query has neither a `k` nor a `:`. */
  lemma IdQueryLetters()
    ensures 'k' !in Lower(IdQuery) && ':' !in Lower(IdQuery)
  {
    IdQueryChars();
    LowerAvoids(IdQuery, 'k');
    LowerAvoids(IdQuery, ':');
  }

  lemma IdQueryChars()
    ensures 'k' !in IdQuery && 'K' !in IdQuery && ':' !in IdQuery
  {
    IdQueryLacks('k');
    IdQueryLacks('K');
    IdQueryLacks(':');
  }

  lemma IdQueryLacks(c: char)
    requires c == 'k' || c == 'K' || c == ':'
    ensures c !in IdQuery
  {
  }

  /** `SELECT * FROM employees WHERE id=1` never completes the mission, whatever
      rows come back: it mentions neither "weakness" nor a clock time. */
  lemma IdQueryNeverSolves(results: seq<Row>)
    ensures !Contains(Lower(IdQuery), "weakness")
    ensures !Contains(Lower(IdQuery), "1:00") && !Contains(Lower(IdQuery), "01:00")
    ensures !MissionSolved(1, IdQuery, results)
  {
    var q := Lower(IdQuery);
    IdQueryLetters();
    LacksChar(q, "weakness", 4);
    LacksChar(q, "1:00", 1);
    LacksChar(q, "01:00", 2);
  }
}
