/** What the grid shows of a parsed table: its column count and column names
    (`SetupDataGridView`), the value of each cell of a possibly short row, and
    the text and title of the detail window opened by a double-click
    (`cellDouble_Click`). */
module GridView {
  import opened Wrappers
  import opened Fields
  import opened CsvParser
  import opened Decimal

  /** The exception `Max` throws on an empty sequence ("Sequence contains no
      elements"); nothing in the form catches it. */
  datatype ShapeError = NoRows

  /** The label shown for a cell that has no value. */
  const Placeholder: string := "(Empty)"

  /** `csv.Max(line => line.Length)` over a table with at least one row. */
  function MaxRowLength(table: Table): (m: nat)
    requires table != []
    ensures forall i :: 0 <= i < |table| ==> |table[i]| <= m
    ensures exists i :: 0 <= i < |table| && |table[i]| == m
    decreases |table|
  {
    if |table| == 1 then |table[0]|
    else
      var tail := MaxRowLength(table[1..]);
      if |table[0]| >= tail then |table[0]|
      else
        var i :| 0 <= i < |table[1..]| && |table[1..][i]| == tail;
        assert |table[i + 1]| == tail;
        tail
  }

  /** The column count the grid is given: the length of the longest row, or the
      exception of `Max` when the table has no rows. */
  function ColumnCount(table: Table): (r: Result<nat, ShapeError>)
    ensures r.Success? <==> table != []
    ensures r.Success? ==> forall i :: 0 <= i < |table| ==> |table[i]| <= r.value
    ensures r.Success? ==> exists i :: 0 <= i < |table| && |table[i]| == r.value
  {
    if table == [] then Failure(NoRows) else Success(MaxRowLength(table))
  }

  /** The name of column `i` (0-based): `"Column " + (i + 1)`. */
  function ColumnName(i: nat): (name: string)
    ensures |name| > 7 && name[..7] == "Column "
    ensures AllDigits(name[7..]) && DecimalValue(name[7..]) == i + 1
  {
    DecimalRoundTrip(i + 1);
    assert ("Column " + DecimalString(i + 1))[7..] == DecimalString(i + 1);
    "Column " + DecimalString(i + 1)
  }

  /** The value of column `c` of a grid row holding `row`: the field, or no value
      past the end of a short row. */
  function PadCell(row: Row, c: nat): (cell: Option<string>)
    ensures cell == None <==> |row| <= c
    ensures cell.Some? ==> cell.value == row[c]
  {
    if c < |row| then Some(row[c]) else None
  }

  /** The detail window's text: the cell's value, or the placeholder when the
      cell has no value (`Value?.ToString() ?? "(Empty)"`). */
  function DisplayText(v: Option<string>): (text: string)
    ensures v.Some? ==> text == v.value
    ensures v == None ==> text == Placeholder
  {
    match v
    case Some(s) => s
    case None => Placeholder
  }

  /** The detail window's title `Cell[{col},{row}]`, with 0-based indices. */
  function Title(col: nat, row: nat): (title: string)
    ensures |title| >= 8 && title[..5] == "Cell[" && title[|title| - 1] == ']'
  {
    "Cell[" + DecimalString(col) + "," + DecimalString(row) + "]"
  }

  /** A file yields a column count exactly when some character of it is not a
      line break; the count is then at least one, since every row has a field.
      A file that is empty or holds only line breaks makes `Max` throw. */
  lemma ParsedColumnCount(text: string)
    ensures ColumnCount(Parse(text)).Success? <==>
      exists i :: 0 <= i < |text| && text[i] != LineBreak
    ensures ColumnCount(Parse(text)).Success? ==> ColumnCount(Parse(text)).value >= 1
  {
    ParseNoRows(text);
    ParsedRows(text);
    var table := Parse(text);
    if table != [] {
      assert |table[0]| >= 1;
    }
  }

  /** Column names are distinct: the grid labels each column differently. */
  lemma ColumnNamesDistinct(i: nat, j: nat)
    ensures ColumnName(i) == ColumnName(j) <==> i == j
  {
    if ColumnName(i) == ColumnName(j) {
      assert ColumnName(i)[7..] == DecimalString(i + 1);
      assert ColumnName(j)[7..] == DecimalString(j + 1);
      DecimalStringInjective(i + 1, j + 1);
    }
  }

  /** A grid row determines the row it was filled from: fields are always
      values (an empty field is `Some("")`), so a missing cell is never
      confused with an empty field. */
  lemma PaddingIsLossless(row1: Row, row2: Row, n: nat)
    requires |row1| <= n && |row2| <= n
    requires forall c :: 0 <= c < n ==> PadCell(row1, c) == PadCell(row2, c)
    ensures row1 == row2
  {
    assert PadCell(row1, |row1|) == None && PadCell(row2, |row2|) == None;
    forall c | 0 <= c < |row1|
      ensures row1[c] == row2[c]
    {
      assert PadCell(row1, c) == PadCell(row2, c);
    }
  }

  /** The placeholder is shown for a missing cell, and for a field whose text is
      the placeholder itself; the two cannot be told apart in the window. */
  lemma DisplayTextPlaceholder(v: Option<string>)
    ensures DisplayText(v) == Placeholder <==> v == None || v == Some(Placeholder)
  {
  }

  /** Two numbers written before and after a comma can be read back. */
  lemma {:induction false} DigitsAroundComma(a: string, b: string, a': string, b': string)
    requires AllDigits(a) && AllDigits(a')
    requires a + "," + b == a' + "," + b'
    ensures a == a' && b == b'
  {
    var s := a + "," + b;
    assert s[|a|] == ',' && s[|a'|] == ',';
    assert a == s[..|a|] && a' == s[..|a'|];
    assert b == s[|a| + 1..] && b' == s[|a'| + 1..];
  }

  /** The title names one cell: different cells get different titles. */
  lemma TitleIdentifiesCell(c1: nat, r1: nat, c2: nat, r2: nat)
    ensures Title(c1, r1) == Title(c2, r2) <==> c1 == c2 && r1 == r2
  {
    if Title(c1, r1) == Title(c2, r2) {
      var t1 := DecimalString(c1) + "," + DecimalString(r1);
      var t2 := DecimalString(c2) + "," + DecimalString(r2);
      assert Title(c1, r1) == "Cell[" + t1 + "]";
      assert Title(c2, r2) == "Cell[" + t2 + "]";
      assert t1 == Title(c1, r1)[5..|Title(c1, r1)| - 1];
      assert t2 == Title(c2, r2)[5..|Title(c2, r2)| - 1];
      DigitsAroundComma(DecimalString(c1), DecimalString(r1), DecimalString(c2), DecimalString(r2));
      DecimalStringInjective(c1, c2);
      DecimalStringInjective(r1, r2);
    }
  }

  /** The usage example: three columns; the third cell of the short second row
      has no value and shows the placeholder; the title counts from 0 where the
      column names count from 1. */
  lemma GridExample(text: string)
    requires text == "a,b,c\nd,e\n"
    ensures ColumnCount(Parse(text)) == Success(3)
    ensures |Parse(text)| == 2 && DisplayText(PadCell(Parse(text)[1], 2)) == Placeholder
    ensures Title(2, 1) == "Cell[2,1]" && ColumnName(2) == "Column 3"
  {
    ParseExample(text);
    var table: Table := [["a", "b", "c"], ["d", "e"]];
    assert MaxRowLength(table[1..]) == 2;
  }

  /** An empty field is a value, so its window shows an empty label and not the
      placeholder. */
  lemma EmptyFieldDisplay(text: string)
    requires text == "a,,c"
    ensures |Parse(text)| == 1 && DisplayText(PadCell(Parse(text)[0], 1)) == ""
  {
    ParseEmptyFieldExample(text);
  }
}
