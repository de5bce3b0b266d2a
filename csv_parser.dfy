/** The parse in `ReadCSV` (Form1.Designer.cs): the file text is split on line
    breaks, zero-length lines are dropped and each remaining line is split on
    commas. There is no quoting, escaping or trimming. */
module CsvParser {
  import opened Fields

  /** The fields of one line (a `string[]`). */
  type Row = seq<string>

  /** The rows of a file in file order (the `List<string[]>` held in `csv`). */
  type Table = seq<Row>

  const LineBreak: char := '\n'
  const Comma: char := ','

  /** `.Where(t => t.Length > 0)`: the lines of positive length, in order. */
  function NonEmptyLines(lines: seq<string>): (kept: seq<string>)
    ensures |kept| <= |lines|
    ensures forall i :: 0 <= i < |kept| ==> kept[i] != ""
    decreases |lines|
  {
    if lines == [] then []
    else (if lines[0] == "" then [] else [lines[0]]) + NonEmptyLines(lines[1..])
  }

  /** `.Select(t => t.Split(','))`: each line becomes the row of its fields. */
  function SplitLines(lines: seq<string>): (rows: Table)
    ensures |rows| == |lines|
    ensures forall i :: 0 <= i < |rows| ==> rows[i] != [] && Join(rows[i], Comma) == lines[i]
  {
    JoinSplitEach(lines);
    seq(|lines|, i requires 0 <= i < |lines| => Split(lines[i], Comma))
  }

  /** The whole pipeline of `ReadCSV`. */
  function Parse(text: string): (rows: Table)
    ensures |rows| <= Occurrences(text, LineBreak) + 1
    ensures forall i :: 0 <= i < |rows| ==> rows[i] != [] && rows[i] != [""]
  {
    SplitCount(text, LineBreak);
    SplitLines(NonEmptyLines(Split(text, LineBreak)))
  }

  /** Joining the comma split of each line gives back the line. */
  lemma JoinSplitEach(lines: seq<string>)
    ensures forall i :: 0 <= i < |lines| ==> Join(Split(lines[i], Comma), Comma) == lines[i]
  {
    forall i | 0 <= i < |lines|
      ensures Join(Split(lines[i], Comma), Comma) == lines[i]
    {
      JoinSplit(lines[i], Comma);
    }
  }

  /** Each row written back as a line: its fields joined by commas. */
  function RowLines(table: Table): (lines: seq<string>)
  {
    seq(|table|, i requires 0 <= i < |table| => Join(table[i], Comma))
  }

  /** The text of a table: its lines joined by line breaks. */
  function Unparse(table: Table): (text: string)
  {
    Join(RowLines(table), LineBreak)
  }

  /** The number of empty lines. */
  function BlankCount(lines: seq<string>): (n: nat)
  {
    if lines == [] then 0 else (if lines[0] == "" then 1 else 0) + BlankCount(lines[1..])
  }

  /** The shape every parsed table has: each row has at least one field, is not
      the row of a blank line, and no field holds a comma or a line break. */
  predicate WellFormed(table: Table)
  {
    forall i :: 0 <= i < |table| ==>
      table[i] != [] && table[i] != [""] &&
      forall j :: 0 <= j < |table[i]| ==> Comma !in table[i][j] && LineBreak !in table[i][j]
  }

  /** Exactly the non-empty lines are kept. */
  lemma {:induction false} NonEmptyLinesMembers(lines: seq<string>)
    ensures forall x :: x in NonEmptyLines(lines) <==> x in lines && x != ""
    decreases |lines|
  {
    if lines != [] {
      NonEmptyLinesMembers(lines[1..]);
      assert lines == [lines[0]] + lines[1..];
    }
  }

  /** Filtering is done line by line: it distributes over concatenation. */
  lemma {:induction false} NonEmptyLinesAppend(a: seq<string>, b: seq<string>)
    ensures NonEmptyLines(a + b) == NonEmptyLines(a) + NonEmptyLines(b)
    decreases |a|
  {
    if a == [] {
      assert a + b == b;
    } else {
      assert (a + b)[1..] == a[1..] + b;
      NonEmptyLinesAppend(a[1..], b);
    }
  }

  /** Every line is either kept or counted as blank. */
  lemma {:induction false} NonEmptyLinesCount(lines: seq<string>)
    ensures |NonEmptyLines(lines)| + BlankCount(lines) == |lines|
    decreases |lines|
  {
    if lines != [] {
      NonEmptyLinesCount(lines[1..]);
    }
  }

  /** Splitting lines into fields is done line by line. */
  lemma SplitLinesAppend(a: seq<string>, b: seq<string>)
    ensures SplitLines(a + b) == SplitLines(a) + SplitLines(b)
  {
  }

  /** A line break separates the rows before it from the rows after it, so rows
      come out in file order, and a blank line or a trailing line break adds no
      row. */
  lemma ParseAppend(a: string, b: string)
    ensures Parse(a + [LineBreak] + b) == Parse(a) + Parse(b)
  {
    SplitAppend(a, b, LineBreak);
    NonEmptyLinesAppend(Split(a, LineBreak), Split(b, LineBreak));
    SplitLinesAppend(NonEmptyLines(Split(a, LineBreak)), NonEmptyLines(Split(b, LineBreak)));
  }

  /** A trailing line break does not add a row. */
  lemma ParseTrailingLineBreak(text: string)
    ensures Parse(text + [LineBreak]) == Parse(text)
  {
    ParseAppend(text, "");
    assert text + [LineBreak] + "" == text + [LineBreak];
  }

  /** A non-empty line without a line break is one row: its comma split. */
  lemma ParseLine(line: string)
    requires line != [] && LineBreak !in line
    ensures Parse(line) == [Split(line, Comma)]
  {
    SplitWithoutSeparator(line, LineBreak);
  }

  /** Row `i` is the verbatim comma split of the `i`-th non-empty line of the
      text: joining its fields with commas gives back that line, it has one field
      more than the line has commas, and no field holds a comma or a line break. */
  lemma ParsedRows(text: string)
    ensures WellFormed(Parse(text))
    ensures |Parse(text)| == |NonEmptyLines(Split(text, LineBreak))|
    ensures forall i :: 0 <= i < |Parse(text)| ==>
      Join(Parse(text)[i], Comma) == NonEmptyLines(Split(text, LineBreak))[i] &&
      Join(Parse(text)[i], Comma) in Split(text, LineBreak) &&
      Join(Parse(text)[i], Comma) != "" &&
      |Parse(text)[i]| == Occurrences(Join(Parse(text)[i], Comma), Comma) + 1
  {
    var lines := Split(text, LineBreak);
    var kept := NonEmptyLines(lines);
    var table := Parse(text);
    SplitFields(text, LineBreak);
    NonEmptyLinesMembers(lines);
    forall i | 0 <= i < |table|
      ensures table[i] != [] && table[i] != [""]
      ensures forall j :: 0 <= j < |table[i]| ==> Comma !in table[i][j] && LineBreak !in table[i][j]
      ensures Join(table[i], Comma) == kept[i] && kept[i] in lines && kept[i] != ""
      ensures |table[i]| == Occurrences(Join(table[i], Comma), Comma) + 1
    {
      var line := kept[i];
      assert line in kept;
      assert LineBreak !in line;
      assert table[i] == Split(line, Comma);
      SplitFields(line, Comma);
      SplitCount(line, Comma);
      JoinSplit(line, Comma);
    }
  }

  /** Only line breaks separate lines and only zero-length lines are dropped: a
      text is read as no rows at all exactly when it consists of line breaks only. */
  lemma {:induction false} ParseNoRows(text: string)
    ensures Parse(text) == [] <==> forall i :: 0 <= i < |text| ==> text[i] == LineBreak
    decreases |text|
  {
    if LineBreak !in text {
      SplitWithoutSeparator(text, LineBreak);
      assert text != [] ==> text[0] != LineBreak;
    } else {
      var k := IndexOf(text, LineBreak);
      var line, rest := text[..k], text[k + 1..];
      assert text == line + [LineBreak] + rest;
      ParseAppend(line, rest);
      SplitWithoutSeparator(line, LineBreak);
      ParseNoRows(rest);
      assert line != [] ==> text[0] == line[0] != LineBreak;
      assert forall i :: 0 <= i < |rest| ==> rest[i] == text[k + 1 + i];
      if line == [] {
        assert forall i :: 0 < i < |text| ==> text[i] == rest[i - 1];
      }
    }
  }

  /** Rows plus blank lines make up all the lines: one more than the number of
      line breaks. */
  lemma ParseRowCount(text: string)
    ensures |Parse(text)| + BlankCount(Split(text, LineBreak)) == Occurrences(text, LineBreak) + 1
  {
    NonEmptyLinesCount(Split(text, LineBreak));
    SplitCount(text, LineBreak);
  }

  /** Parsing the text of a well-formed table gives back the table. */
  lemma ParseUnparse(table: Table)
    requires WellFormed(table)
    ensures Parse(Unparse(table)) == table
  {
    var lines := RowLines(table);
    if table == [] {
      assert Unparse(table) == "";
    } else {
      forall i | 0 <= i < |lines|
        ensures LineBreak !in lines[i] && lines[i] != ""
        ensures Split(lines[i], Comma) == table[i]
      {
        SplitJoin(table[i], Comma);
        if LineBreak in lines[i] {
          JoinChars(table[i], Comma, LineBreak);
        }
      }
      SplitJoin(lines, LineBreak);
      NonEmptyLinesKeepsAll(lines);
    }
  }

  /** Lines none of which is empty are all kept. */
  lemma {:induction false} NonEmptyLinesKeepsAll(lines: seq<string>)
    requires forall i :: 0 <= i < |lines| ==> lines[i] != ""
    ensures NonEmptyLines(lines) == lines
    decreases |lines|
  {
    if lines != [] {
      NonEmptyLinesKeepsAll(lines[1..]);
      assert [lines[0]] + lines[1..] == lines;
    }
  }

  /** Writing a parsed table back gives the text with its empty lines removed. */
  lemma UnparseParse(text: string)
    ensures Unparse(Parse(text)) == Join(NonEmptyLines(Split(text, LineBreak)), LineBreak)
  {
    var kept := NonEmptyLines(Split(text, LineBreak));
    forall i | 0 <= i < |kept|
      ensures RowLines(Parse(text))[i] == kept[i]
    {
      JoinSplit(kept[i], Comma);
    }
    assert RowLines(Parse(text)) == kept;
  }

  /** Splitting `x,rest` for a comma-free `x`. */
  lemma SplitRowExample(x: string, rest: string)
    requires Comma !in x
    ensures Split(x + [Comma] + rest, Comma) == [x] + Split(rest, Comma)
  {
    SplitAppend(x, rest, Comma);
    SplitWithoutSeparator(x, Comma);
  }

  /** A line of two comma-free fields. */
  lemma ParseTwoFields(x: string, y: string)
    requires Comma !in x && Comma !in y && LineBreak !in x && LineBreak !in y
    ensures Parse(x + [Comma] + y) == [[x, y]]
  {
    var line := x + [Comma] + y;
    assert LineBreak !in line;
    ParseLine(line);
    SplitRowExample(x, y);
    SplitWithoutSeparator(y, Comma);
    assert Split(line, Comma) == [x] + [y] == [x, y];
  }

  /** A line of three comma-free fields. */
  lemma ParseThreeFields(x: string, y: string, z: string)
    requires Comma !in x && Comma !in y && Comma !in z
    requires LineBreak !in x && LineBreak !in y && LineBreak !in z
    ensures Parse(x + [Comma] + (y + [Comma] + z)) == [[x, y, z]]
  {
    var tail := y + [Comma] + z;
    var line := x + [Comma] + tail;
    assert LineBreak !in line;
    ParseLine(line);
    SplitRowExample(x, tail);
    SplitRowExample(y, z);
    SplitWithoutSeparator(z, Comma);
    assert Split(line, Comma) == [x] + ([y] + [z]) == [x, y, z];
  }

  /** The file of the usage example: three fields, then two. */
  lemma ParseExample(text: string)
    requires text == "a,b,c\nd,e\n"
    ensures Parse(text) == [["a", "b", "c"], ["d", "e"]]
  {
    var first, second := "a" + [Comma] + ("b" + [Comma] + "c"), "d" + [Comma] + "e";
    assert text == first + [LineBreak] + (second + [LineBreak]);
    ParseAppend(first, second + [LineBreak]);
    ParseTrailingLineBreak(second);
    ParseThreeFields("a", "b", "c");
    ParseTwoFields("d", "e");
  }

  /** A blank line and a trailing line break add no row. */
  lemma ParseBlankLinesExample(text: string)
    requires text == "a,b\n\n"
    ensures Parse(text) == [["a", "b"]]
  {
    var line := "a" + [Comma] + "b";
    assert text == line + [LineBreak] + [LineBreak];
    ParseAppend(line, [LineBreak]);
    ParseNoRows([LineBreak]);
    ParseTwoFields("a", "b");
  }

  /** Only `'\n'` breaks lines: a carriage return stays in the last field of a
      CRLF line, and a line holding only a carriage return is a one-field row. */
  lemma ParseCarriageReturnExample(crlf: string, cr: string)
    requires crlf == "a,b\r\n" && cr == "\r"
    ensures Parse(crlf) == [["a", "b\r"]]
    ensures Parse(cr) == [[cr]]
  {
    var line := "a" + [Comma] + "b\r";
    assert crlf == line + [LineBreak];
    ParseTrailingLineBreak(line);
    ParseTwoFields("a", "b\r");
    ParseLine(cr);
    SplitWithoutSeparator(cr, Comma);
  }

  /** An empty field between two commas is kept as an empty string. */
  lemma ParseEmptyFieldExample(text: string)
    requires text == "a,,c"
    ensures Parse(text) == [["a", "", "c"]]
  {
    assert text == "a" + [Comma] + ("" + [Comma] + "c");
    ParseThreeFields("a", "", "c");
  }

  /** A file with an empty field in its first row and a shorter second row. */
  lemma ParseShortRowExample(text: string)
    requires text == "a,,c\nd\n"
    ensures Parse(text) == [["a", "", "c"], ["d"]]
  {
    var first := "a" + [Comma] + ("" + [Comma] + "c");
    assert text == first + [LineBreak] + ("d" + [LineBreak]);
    ParseAppend(first, "d" + [LineBreak]);
    ParseTrailingLineBreak("d");
    ParseThreeFields("a", "", "c");
    ParseLine("d");
    SplitWithoutSeparator("d", Comma);
  }
}
