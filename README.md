# CSV display: a verified model of the parse-and-grid core

The CSV display is a one-form WinForms program. It asks for a `.csv` file, reads it
and shows it in a grid. Double-clicking a cell opens a small window with that cell's
value. This project models the part with logic in it:

- **The parse** (`Fields`, `CsvParser`). The file text is split on `'\n'`.
  Zero-length lines are dropped, and each remaining line is split on `','`. There
  is no quoting, escaping or trimming. `Split` follows .NET's `String.Split(char)`:
  empty fields are kept and the result always has at least one field. `Join` is its
  inverse, and `Unparse` writes a table back as text.
- **The grid's shape** (`GridView`). The column count is the length of the longest
  row. With no rows, `Max` throws, so `ColumnCount` returns `Failure(NoRows)`.
  Column `i` is named `"Column " + (i + 1)`. The decimal rendering of the number is
  modelled in `Decimal`.
- **The form** (`CsvForm.Form1`). This class holds the parsed table `csv`, an
  array of column names and a 2-D array of `Option<string>` cells. `None` is a cell
  with no value. Its methods are `SetupDataGridView`, which sizes and names the
  columns, `AddRow` (`Rows.Add`), `Populate` (the `ForEach` over the rows) and
  `InitializeComponent`. The object invariant `Valid()` says that every added grid
  row holds its parsed row's fields, and that the cells past the end of a short
  row have no value.
- **The double-click** (`Form1.CellDoubleClick`). It reads one cell and returns
  the detail window's label text and its title `Cell[{col},{row}]`. The label is the
  value, or `"(Empty)"` when there is none. The method has no `modifies` clause, so
  it changes nothing in the form.

Two behaviours of the code are modelled as written:

- A file that is empty, or holds only line breaks, parses to no rows. `Max` then
  throws, and nothing catches it. The model returns an error here; it does not
  build an empty grid. `GridView.ParsedColumnCount` states exactly which texts
  fail.
- The comment at `Form1.Designer.cs:158` says that an empty field such as the one
  in `a,,c` falls back to `"(Empty)"`. The `??` on line 159 only replaces a missing
  value. The model keeps an empty field as `Some("")`, so its window shows an empty
  label (`GridView.EmptyFieldDisplay`). How the WinForms grid stores `""` is decided
  inside the framework, outside this program, so this tension is flagged here, not resolved.

The title counts columns and rows from 0. The column names count from 1
(`GridView.GridExample`: column 2 is named `Column 3`, and the title of row 1,
column 2 is `Cell[2,1]`).

## Model

| member | source | states |
|---|---|---|
| `Fields.Split` | Form1.Designer.cs:123-125 | `String.Split(char)` always returns at least one field, even for the empty string |
| `Fields.SplitCount` | Form1.Designer.cs:123-125 | a split has exactly one field more than the string has separators |
| `Fields.SplitFields` | Form1.Designer.cs:123-125 | no field of a split contains the separator, and every character of a field comes from the split string |
| `Fields.JoinSplit` | Form1.Designer.cs:123-125 | joining the fields of a split with the separator gives back the string verbatim (nothing is trimmed or lost) |
| `Fields.SplitJoin` | Form1.Designer.cs:123-125 | splitting the join of a non-empty list of separator-free fields gives back those fields |
| `Fields.SplitAppend` | Form1.Designer.cs:123 | the fields of `a + sep + b` are the fields of `a` followed by the fields of `b` |
| `Fields.SplitWithoutSeparator` | Form1.Designer.cs:123-125 | a string without the separator splits into exactly itself |
| `CsvParser.SplitLines` | Form1.Designer.cs:125 | `.Select(t => t.Split(','))` gives one row per line, and joining each row with commas gives back its line |
| `CsvParser.Parse` | Form1.Designer.cs:123-126 | the whole `Split`/`Where`/`Select` chain: at most one row more than the text has line breaks, and no row is empty or the single empty field of a blank line (its order and content: `ParseAppend`, `ParsedRows`) |
| `CsvParser.NonEmptyLines` | Form1.Designer.cs:124 | the filter keeps only lines of positive length, and never more lines than it is given |
| `CsvParser.NonEmptyLinesMembers` | Form1.Designer.cs:124 | a line is kept exactly when it occurs in the input and is not empty |
| `CsvParser.NonEmptyLinesAppend` | Form1.Designer.cs:124 | filtering works line by line, so it preserves order and distributes over concatenation |
| `CsvParser.NonEmptyLinesCount` | Form1.Designer.cs:124 | the kept lines plus the empty lines make up all the lines |
| `CsvParser.NonEmptyLinesKeepsAll` | Form1.Designer.cs:124 | a list with no empty line passes the filter unchanged |
| `CsvParser.ParseAppend` | Form1.Designer.cs:123-126 | parsing `a + "\n" + b` gives the rows of `a` followed by the rows of `b`: rows come in file order, and blank lines add nothing |
| `CsvParser.ParseTrailingLineBreak` | Form1.Designer.cs:123-124 | a trailing line break adds no row |
| `CsvParser.ParseLine` | Form1.Designer.cs:123-125 | a non-empty text without a line break parses to exactly one row, its comma split |
| `CsvParser.ParsedRows` | Form1.Designer.cs:123-126 | row `i` is the comma split of the `i`-th non-empty line of the text, and there are as many rows as non-empty lines: joining row `i` with commas gives that line, it has one field more than the line has commas, it is never empty, and no field holds `','` or `'\n'` |
| `CsvParser.ParseNoRows` | Form1.Designer.cs:123-124 | a text parses to no rows exactly when every character of it is `'\n'`; only `'\n'` separates lines and only zero-length lines are dropped |
| `CsvParser.ParseRowCount` | Form1.Designer.cs:123-124 | the number of rows plus the number of blank segments is the number of line breaks plus one |
| `CsvParser.ParseUnparse` | Form1.Designer.cs:123-126 | parsing the text of a well-formed table gives back the table |
| `CsvParser.UnparseParse` | Form1.Designer.cs:123-126 | writing a parsed table back gives the text with its empty lines removed |
| `CsvParser.ParseExample` | Form1.Designer.cs:123-126 | `"a,b,c\nd,e\n"` parses to `["a","b","c"]` and `["d","e"]` |
| `CsvParser.ParseBlankLinesExample` | Form1.Designer.cs:123-126 | `"a,b\n\n"` parses to the single row `["a","b"]` |
| `CsvParser.ParseCarriageReturnExample` | Form1.Designer.cs:123-126 | a CRLF line keeps `'\r'` in its last field, and a line that is just `"\r"` is a one-field row |
| `CsvParser.ParseEmptyFieldExample` | Form1.Designer.cs:123-125 | `"a,,c"` keeps its middle field as the empty string |
| `CsvParser.ParseShortRowExample` | Form1.Designer.cs:123-126 | `"a,,c\nd\n"` parses to `["a","","c"]` and the short row `["d"]` |
| `Decimal.DecimalString` | Form1.Designer.cs:197 | the interpolated number is a non-empty string of decimal digits with no leading zero |
| `Decimal.DecimalRoundTrip` | Form1.Designer.cs:197 | reading the digits of the rendering of `n` gives back `n` |
| `Decimal.DecimalStringInjective` | Form1.Designer.cs:197 | two numbers have the same rendering exactly when they are equal |
| `GridView.MaxRowLength` | Form1.Designer.cs:179 | `Max(line => line.Length)` is at least the length of every row and equal to the length of some row |
| `GridView.ColumnCount` | Form1.Designer.cs:179-181 | the column count exists exactly when there is a row, and it is then the longest row's length (`Max` throws on no rows) |
| `GridView.ParsedColumnCount` | Form1.Designer.cs:179 | a file gets a column count exactly when some character is not `'\n'`, and that count is then at least 1 |
| `GridView.ColumnName` | Form1.Designer.cs:197 | the name of column `i` is `"Column "` followed by decimal digits that read back as `i + 1` (distinctness: `ColumnNamesDistinct`) |
| `GridView.PadCell` | Form1.Designer.cs:25 | what `Rows.Add(row)` leaves in column `c`: no value exactly when `c` is past the end of the row, the field `row[c]` otherwise (no information lost: `PaddingIsLossless`) |
| `GridView.DisplayText` | Form1.Designer.cs:159 | `Value?.ToString() ?? "(Empty)"`: a value is shown as it is, a missing value as `"(Empty)"` (when the two look alike: `DisplayTextPlaceholder`) |
| `GridView.Title` | Form1.Designer.cs:162 | the title has the form `Cell[...]` (that it names exactly one cell: `TitleIdentifiesCell`) |
| `GridView.ColumnNamesDistinct` | Form1.Designer.cs:196-197 | the names `"Column " + (i + 1)` of two columns are equal exactly when the columns are the same |
| `GridView.PaddingIsLossless` | Form1.Designer.cs:25 | a grid row determines the parsed row it was filled from: a missing cell is never confused with an empty field |
| `GridView.DisplayTextPlaceholder` | Form1.Designer.cs:159 | the label is `"(Empty)"` exactly when the cell has no value or its value is the text `"(Empty)"` |
| `GridView.TitleIdentifiesCell` | Form1.Designer.cs:162 | two cells get the same title `Cell[col,row]` exactly when they are the same cell |
| `GridView.GridExample` | Form1.Designer.cs:179-181 | for `"a,b,c\nd,e\n"` the grid has 3 columns, cell (row 1, column 2) of the short row shows `"(Empty)"`, its title is `Cell[2,1]` and column 2 is named `Column 3` |
| `GridView.EmptyFieldDisplay` | Form1.Designer.cs:158-159 | the empty middle field of `"a,,c"` shows as an empty label, not as `"(Empty)"` |
| `CsvForm.Form1.constructor` | Form1.Designer.cs:13-15 | a new form has no rows and an empty grid of its own (fresh arrays) |
| `CsvForm.Form1.ReadCsv` | Form1.Designer.cs:123-126 | `csv` becomes the parse of the file's text |
| `CsvForm.Form1.SetupDataGridView` | Form1.Designer.cs:174-181 | with rows: a fresh grid with as many columns as the longest row, all named, no row added yet; with none: the `Max` error and no change to the form |
| `CsvForm.Form1.LabelColumns` | Form1.Designer.cs:196-197 | after the loop, every column `i` is named `"Column " + (i + 1)` |
| `CsvForm.Form1.AddRow` | Form1.Designer.cs:25 | the next grid row holds the row's fields in its first columns and no value after them; no other grid row changes |
| `CsvForm.Form1.Populate` | Form1.Designer.cs:25 | every parsed row is added in order: grid row `r` holds row `r`'s fields at columns below its length and no value after them, and the grid has as many rows as the table |
| `CsvForm.Form1.InitializeComponent` | Form1.Designer.cs:17-26 | `csv` is the parse of the text; it succeeds exactly when some character is not `'\n'`, and then leaves a valid grid with all rows added and as many columns as the longest row; on failure the grid is left as it was |
| `CsvForm.Form1.CellDoubleClick` | Form1.Designer.cs:147-165 | for a cell in the grid, the label is the parsed row's field, or `"(Empty)"` past the end of a short row, and the title is `Cell[col,row]` with 0-based indices; a row or column outside the grid is an error; nothing in the form changes |
| `CsvForm.OpenExample` | Form1.Designer.cs:147-165 | a new form opened on `"a,,c\nd\n"`: the empty field shows an empty label titled `Cell[1,0]`, the cell past the short row shows `"(Empty)"` titled `Cell[1,1]`, and row 2 is an error |

## Left out

- The file-selection dialog, its button handler and the exit when the dialog closes with no file (Form1.Designer.cs:30-88) are user-interface events. The `file` field they set only feeds the reader, so it is not modelled.
- Reading the file (`StreamReader`, `ReadToEnd`) and the three `catch` blocks that log the error and exit (Form1.Designer.cs:114-120, 128-142) are I/O. The file's text is the parameter of `ReadCsv` and `InitializeComponent`.
- Writing errors to `CSVDisplay-Error.txt` on the desktop, with the console as a fallback (Form1.Designer.cs:91-111), is file-system I/O.
- Layout, colours, fonts, sizes, docking and the selection-mode settings (Form1.Designer.cs:63-82, 150-156, 168-171, 182-193, 199-203) are presentation only.
- Creating and showing the detail window (Form1.Designer.cs:149, 161-164) is not modelled. `CellDoubleClick` returns only its label text and title.
- An exception that nothing catches is modelled as a `Failure` result. What the runtime does next (an error dialog, the end of the process) is not modelled.
- Framework behaviour that Form1.Designer.cs does not spell out is not modelled: the grid's extra "new row" line, editing of cells by the user, and sorting. The grid holds exactly the rows that were added.
- The grid grows one row per `Rows.Add`. The model reserves one array row per parsed row when the columns are set up, and counts the rows added so far.
- How the grid stores an empty string is decided inside the framework. An empty field is modelled as the value `Some("")`.
