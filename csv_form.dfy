/** The form of the CSV display: it holds the parsed table (`csv`), labels the
    grid's columns, adds one grid row per parsed row and, on a double-click,
    computes the text and title of the detail window for one cell. */
module CsvForm {
  import opened Wrappers
  import opened CsvParser
  import opened GridView

  /** Why the grid could not be set up or a cell could not be looked up; in the
      form each is an exception that nothing catches. */
  datatype FormError =
    | EmptyTable          // `Max` over a table with no rows
    | RowOutOfRange       // `Rows[e.RowIndex]` with no such row (a header has row -1)
    | ColumnOutOfRange    // `Cells[e.ColumnIndex]` with no such column

  /** The detail window of one cell: its label text and its title. */
  datatype DetailView = DetailView(text: string, title: string)

  class Form1 {
    /** The parsed rows of the chosen file. */
    var csv: Table
    /** The grid's columns, by name (`Columns[i].Name`); its length is `ColumnCount`. */
    var columnNames: array<string>
    /** The grid's cells: `cells[r, c]` is the value of column `c` of grid row `r`,
        `None` when it has none. Storage is reserved for one grid row per parsed
        row; `rowCount` of them have been added. */
    var cells: array2<Option<string>>
    var rowCount: nat

    /** The columns carry the names "Column 1", "Column 2", ... */
    ghost predicate Labelled()
      reads this, columnNames
    {
      forall i :: 0 <= i < columnNames.Length ==> columnNames[i] == ColumnName(i)
    }

    /** The grid set up for `csv`: as many columns as the longest row, every
        added grid row holding its parsed row's fields, and no value in the
        rows not added yet. */
    ghost predicate Valid()
      reads this, columnNames, cells
    {
      cells.Length1 == columnNames.Length &&
      cells.Length0 == |csv| &&
      rowCount <= |csv| &&
      (csv != [] ==> columnNames.Length == MaxRowLength(csv)) &&
      Labelled() &&
      (forall r, c :: 0 <= r < rowCount && 0 <= c < cells.Length1 ==> cells[r, c] == PadCell(csv[r], c)) &&
      (forall r, c :: rowCount <= r < cells.Length0 && 0 <= c < cells.Length1 ==> cells[r, c] == None)
    }

    /** A form with no rows and an empty grid. */
    constructor ()
      ensures Valid() && csv == [] && rowCount == 0
      ensures columnNames.Length == 0 && cells.Length0 == 0
      ensures fresh(columnNames) && fresh(cells)
    {
      csv := [];
      columnNames := new string[0];
      cells := new Option<string>[0, 0];
      rowCount := 0;
    }

    /** `ReadCSV` once the file's text has been read: `csv` becomes its parse. */
    method ReadCsv(text: string)
      modifies this`csv
      ensures csv == Parse(text)
    {
      csv := Parse(text);
    }

    /** `SetupDataGridView`: the grid gets as many columns as the longest row,
        named "Column 1", "Column 2", ...; with no rows `Max` throws and the
        grid is left as it was. */
    method SetupDataGridView() returns (r: Result<nat, FormError>)
      modifies this`columnNames, this`cells, this`rowCount
      ensures r.Success? <==> csv != []
      ensures r.Failure? ==> r.error == EmptyTable && unchanged(this)
      ensures r.Success? ==> Valid() && rowCount == 0 && columnNames.Length == r.value
      ensures r.Success? ==> fresh(columnNames) && fresh(cells)
    {
      var count := ColumnCount(csv);
      if count.Failure? {
        return Failure(EmptyTable);
      }
      var length := count.value;
      columnNames := new string[length];
      cells := new Option<string>[|csv|, length]((_, _) => None);
      rowCount := 0;
      LabelColumns();
      r := Success(length);
    }

    /** The loop of `SetupDataGridView` that names every column. */
    method LabelColumns()
      modifies columnNames
      ensures Labelled()
    {
      for i := 0 to columnNames.Length
        invariant forall k :: 0 <= k < i ==> columnNames[k] == ColumnName(k)
      {
        columnNames[i] := ColumnName(i);
      }
    }

    /** `Rows.Add(row)`: the next grid row gets the row's fields in its first
        columns; its other cells keep no value, and no other row changes. */
    method AddRow(row: Row)
      requires rowCount < cells.Length0 && |row| <= cells.Length1
      requires forall c :: 0 <= c < cells.Length1 ==> cells[rowCount, c] == None
      modifies this`rowCount, cells
      ensures rowCount == old(rowCount) + 1
      ensures forall c :: 0 <= c < cells.Length1 ==> cells[old(rowCount), c] == PadCell(row, c)
      ensures forall r, c :: 0 <= r < cells.Length0 && r != old(rowCount) && 0 <= c < cells.Length1 ==>
        cells[r, c] == old(cells[r, c])
    {
      for c := 0 to |row|
        invariant rowCount == old(rowCount)
        invariant forall k :: 0 <= k < c ==> cells[rowCount, k] == Some(row[k])
        invariant forall k :: c <= k < cells.Length1 ==> cells[rowCount, k] == None
        invariant forall r, k :: 0 <= r < cells.Length0 && r != rowCount && 0 <= k < cells.Length1 ==>
          cells[r, k] == old(cells[r, k])
      {
        cells[rowCount, c] := Some(row[c]);
      }
      rowCount := rowCount + 1;
    }

    /** `csv.ForEach(row => Rows.Add(row))`: every parsed row is added, in order. */
    method Populate()
      requires Valid() && rowCount == 0
      modifies this`rowCount, cells
      ensures Valid() && rowCount == |csv|
      ensures forall r, c :: 0 <= r < |csv| && 0 <= c < columnNames.Length ==> cells[r, c] == PadCell(csv[r], c)
    {
      for r := 0 to |csv|
        invariant Valid() && rowCount == r
      {
        AddRow(csv[r]);
      }
    }

    /** `InitializeComponent` from the file's text on: parse it, set up the grid
        and add every row. A text with no non-empty line ends in the exception
        of `Max`. */
    method InitializeComponent(text: string) returns (r: Result<(), FormError>)
      requires Valid() && rowCount == 0
      modifies this
      ensures csv == Parse(text)
      ensures r.Success? <==> exists i :: 0 <= i < |text| && text[i] != LineBreak
      ensures r.Failure? ==> r.error == EmptyTable
      ensures r.Failure? ==> columnNames == old(columnNames) && cells == old(cells) && rowCount == old(rowCount)
      ensures r.Success? ==> csv != [] && Valid() && rowCount == |csv| && columnNames.Length == MaxRowLength(csv)
    {
      ReadCsv(text);
      ParseNoRows(text);
      var setup := SetupDataGridView();
      if setup.Failure? {
        return Failure(setup.error);
      }
      Populate();
      r := Success(());
    }

    /** `cellDouble_Click`: the detail window of the clicked cell shows the
        field of the parsed row, or the placeholder past the end of a short
        row, and is titled with the 0-based column and row. An index with no
        grid row or column behind it throws. Nothing in the form changes. */
    method CellDoubleClick(rowIndex: int, columnIndex: int) returns (r: Result<DetailView, FormError>)
      requires Valid()
      ensures r.Success? <==> 0 <= rowIndex < rowCount && 0 <= columnIndex < columnNames.Length
      ensures !(0 <= rowIndex < rowCount) ==> r == Failure(RowOutOfRange)
      ensures 0 <= rowIndex < rowCount && !(0 <= columnIndex < columnNames.Length) ==>
        r == Failure(ColumnOutOfRange)
      ensures r.Success? ==>
        r.value.text == (if columnIndex < |csv[rowIndex]| then csv[rowIndex][columnIndex] else Placeholder) &&
        r.value.title == Title(columnIndex, rowIndex)
    {
      if !(0 <= rowIndex < rowCount) {
        return Failure(RowOutOfRange);
      }
      if !(0 <= columnIndex < cells.Length1) {
        return Failure(ColumnOutOfRange);
      }
      var value := cells[rowIndex, columnIndex];
      r := Success(DetailView(DisplayText(value), Title(columnIndex, rowIndex)));
    }
  }

  /** The form opened on a file whose first row has an empty field and whose
      second row is short: double-clicking the empty field shows an empty label,
      the cell past the end of the short row shows the placeholder, and a row
      below the grid is an error. */
  method OpenExample(text: string) returns (empty: Result<DetailView, FormError>,
      missing: Result<DetailView, FormError>, outside: Result<DetailView, FormError>)
    requires text == "a,,c\nd\n"
    ensures empty == Success(DetailView("", Title(1, 0)))
    ensures missing == Success(DetailView(Placeholder, Title(1, 1)))
    ensures outside == Failure(RowOutOfRange)
  {
    var form := new Form1();
    ParseShortRowExample(text);
    assert text[0] != LineBreak;
    var initialized := form.InitializeComponent(text);
    assert form.csv[1..] == [["d"]];
    empty := form.CellDoubleClick(0, 1);
    missing := form.CellDoubleClick(1, 1);
    outside := form.CellDoubleClick(2, 1);
  }
}
