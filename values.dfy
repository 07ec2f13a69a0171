/** The values sqlite hands back in a result row, and the two ways the game turns
    them into text: `str(value)` in the sample table cells and `str(row)` (the
    tuple's repr) when printing and grading query results. */
module Values {
  import opened Text

  /** One column value of a result row: SQL NULL, an INTEGER or a TEXT. */
  datatype Value = Null | IntVal(n: int) | TextVal(s: string)

  /** A result row, sqlite's tuple of column values. */
  type Row = seq<Value>

  /** Python's `str(value)`. */
  function StrOf(v: Value): string {
    match v
    case Null => "None"
    case IntVal(n) => IntToString(n)
    case TextVal(s) => s
  }

  /** Python's `repr(value)`, with a text value quoted verbatim between single quotes. */
  function ReprOf(v: Value): string {
    match v
    case Null => "None"
    case IntVal(n) => IntToString(n)
    case TextVal(s) => "'" + s + "'"
  }

  /** The repr of a value shows its text. */
  lemma ReprShowsStr(v: Value)
    ensures Contains(ReprOf(v), StrOf(v))
  {
    ContainsSelf(StrOf(v));
    if v.TextVal? {
      ContainsInMiddle("'", v.s, "'", v.s);
    }
  }

  /** Python's `str(row)` for a tuple: `(a, b, c)`, with the trailing comma of a one-element tuple. */
  function RowRepr(row: Row): string {
    if |row| == 1 then
      "(" + ReprOf(row[0]) + ",)"
    else
      "(" + Join(seq(|row|, k requires 0 <= k < |row| => ReprOf(row[k])), ", ") + ")"
  }

  /** The printed row shows the text of each of its values verbatim. */
  lemma RowReprShowsValue(row: Row, k: int)
    requires 0 <= k < |row|
    ensures Contains(RowRepr(row), StrOf(row[k]))
  {
    var item := ReprOf(row[k]);
    ReprShowsStr(row[k]);
    if |row| == 1 {
      ContainsSelf(item);
      ContainsInMiddle("(", item, ",)", item);
    } else {
      var items := seq(|row|, j requires 0 <= j < |row| => ReprOf(row[j]));
      JoinContains(items, ", ", k);
      ContainsInMiddle("(", Join(items, ", "), ")", items[k]);
    }
    ContainsTransitive(RowRepr(row), item, StrOf(row[k]));
  }

  /** A two-column row prints as `(a, b)`. */
  lemma PairRepr(a: Value, b: Value)
    ensures RowRepr([a, b]) == "(" + ReprOf(a) + ", " + ReprOf(b) + ")"
  {
    var row := [a, b];
    var items := seq(|row|, k requires 0 <= k < |row| => ReprOf(row[k]));
    assert items == [ReprOf(a), ReprOf(b)];
    JoinPair(ReprOf(a), ReprOf(b), ", ");
  }

  /** A character of the printed pair of two text values that is not tuple
      punctuation comes from one of the two texts. */
  lemma PairReprChar(s: string, t: string, c: char)
    requires c in RowRepr([TextVal(s), TextVal(t)])
    requires c != '(' && c != ')' && c != ',' && c != ' ' && c != '\''
    ensures c in s || c in t
  {
    PairRepr(TextVal(s), TextVal(t));
    var qs, qt := "'" + s + "'", "'" + t + "'";
    assert RowRepr([TextVal(s), TextVal(t)]) == "(" + qs + ", " + qt + ")";
    assert c in "(" + qs + ", " + qt || c in ")";
    assert c in "(" + qs || c in ", " || c in qt;
    if c in qs {
      assert c in "'" + s || c in "'";
    }
    if c in qt {
      assert c in "'" + t || c in "'";
    }
  }
}
