/** Reading printed tuples back: the cells and the rows that come out are those that went in. */
module SqlRead {
  import opened SqlText
  import opened Wrappers

  /** A text up to its closing quote, doubled quotes made single, and what follows. */
  function Unquoted(text: string): (r: Option<(string, string)>)
    ensures r.Some? ==> |r.value.1| < |text|
  {
    if text == "" then None
    else if text[0] == '\'' then
      if |text| > 1 && text[1] == '\'' then
        match Unquoted(text[2..])
        case None => None
        case Some(r) => Some(("'" + r.0, r.1))
      else Some(("", text[1..]))
    else
      match Unquoted(text[1..])
      case None => None
      case Some(r) => Some(([text[0]] + r.0, r.1))
  }

  /** The characters before the next comma or closing parenthesis, and what follows. */
  function UpToBreak(text: string): (r: (string, string))
    ensures |r.1| <= |text|
  {
    if text == "" || text[0] == ',' || text[0] == ')' then ("", text)
    else var r := UpToBreak(text[1..]); ([text[0]] + r.0, r.1)
  }

  function CellAt(text: string): (r: Option<(Cell, string)>)
    ensures r.Some? ==> |r.value.1| <= |text|
  {
    if text != "" && text[0] == '\'' then
      match Unquoted(text[1..])
      case None => None
      case Some(r) => Some((Text(r.0), r.1))
    else
      var r := UpToBreak(text);
      Some((if r.0 == "NULL" then Null else Number(r.0), r.1))
  }

  /** The cells up to the closing parenthesis. */
  function CellsAt(text: string): (r: Option<(seq<Cell>, string)>)
    ensures r.Some? ==> |r.value.1| < |text| && r.value.0 != []
    decreases |text|
  {
    match CellAt(text)
    case None => None
    case Some(c) =>
      if c.1 != "" && c.1[0] == ')' then Some(([c.0], c.1[1..]))
      else if c.1 != "" && c.1[0] == ',' then
        match CellsAt(c.1[1..])
        case None => None
        case Some(r) => Some(([c.0] + r.0, r.1))
      else None
  }

  /** The rows of a list of tuples; the first cell of each is the row id. */
  function RowsAt(text: string): Option<seq<Row>>
    decreases |text|
  {
    if text == "" || text[0] != '(' then None
    else
      match CellsAt(text[1..])
      case None => None
      case Some(cells) =>
        if !cells.0[0].Number? then None
        else
          var row := Row(cells.0[0].text, cells.0[1..]);
          if cells.1 == "" then Some([row])
          else if cells.1[0] != ',' then None
          else
            match RowsAt(cells.1[1..])
            case None => None
            case Some(rows) => Some([row] + rows)
  }

  // ---- what was printed ----

  /** The text of a number can be told from the rest of a tuple. */
  predicate Tidy(text: string) {
    Plain(text) && ',' !in text && text != "NULL"
  }

  predicate TidyRow(row: Row) {
    Tidy(row.rowid) && forall c <- row.cells :: c.Number? ==> Tidy(c.text)
  }

  predicate Breaks(text: string) {
    text != "" && (text[0] == ',' || text[0] == ')')
  }

  lemma {:induction false} EscapedRead(text: string, tail: string)
    requires tail == "" || tail[0] != '\''
    ensures Unquoted(Escape(text) + ("'" + tail)) == Some((text, tail))
  {
    if text == "" {
      assert "" + ("'" + tail) == "'" + tail && ("'" + tail)[1..] == tail;
    } else {
      EscapeFirst(text, "'" + tail);
      EscapedRead(text[1..], tail);
      var more := Escape(text[1..]) + ("'" + tail);
      assert text == [text[0]] + text[1..];
      if text[0] == '\'' {
        assert ("''" + more)[2..] == more;
      } else {
        assert ([text[0]] + more)[1..] == more;
      }
    }
  }

  lemma {:induction false} PlainRead(text: string, tail: string)
    requires Plain(text) && ',' !in text && Breaks(tail)
    ensures UpToBreak(text + tail) == (text, tail)
  {
    if text == "" {
      assert text + tail == tail;
    } else {
      assert text[0] in text && forall c <- text[1..] :: c in text;
      PlainRead(text[1..], tail);
      assert (text + tail)[1..] == text[1..] + tail && text == [text[0]] + text[1..];
    }
  }

  /** A printed cell reads back as itself. */
  lemma CellRead(c: Cell, tail: string)
    requires Breaks(tail) && (c.Number? ==> Tidy(c.text))
    ensures CellAt(Quote(c) + tail) == Some((c, tail))
  {
    match c {
      case Null => PlainRead("NULL", tail);
      case Number(text) =>
        PlainRead(text, tail);
        if text == "" {
          assert text + tail == tail;
        } else {
          assert text[0] in text;
        }
      case Text(text) =>
        EscapedRead(text, tail);
        var inside := Escape(text) + ("'" + tail);
        assert Quote(c) + tail == "'" + inside && ("'" + inside)[1..] == inside;
    }
  }

  lemma HeadAndTail<T>(xs: seq<T>)
    requires xs != []
    ensures xs == [xs[0]] + xs[1..]
  {
  }

  lemma LastCell(text: string, c: Cell, tail: string)
    requires CellAt(text) == Some((c, ")" + tail))
    ensures CellsAt(text) == Some(([c], tail))
  {
    assert (")" + tail)[1..] == tail;
  }

  lemma CellBefore(text: string, c: Cell, rest: string, cells: seq<Cell>, tail: string)
    requires CellAt(text) == Some((c, "," + rest)) && CellsAt(rest) == Some((cells, tail))
    ensures CellsAt(text) == Some(([c] + cells, tail))
  {
    AfterComma(rest);
  }

  lemma {:induction false} CellsRead(cells: seq<Cell>, tail: string)
    requires cells != [] && forall c <- cells :: c.Number? ==> Tidy(c.text)
    ensures CellsAt(Join(Quotes(cells)) + (")" + tail)) == Some((cells, tail))
  {
    assert cells[0] in cells && forall c <- cells[1..] :: c in cells;
    var text := Join(Quotes(cells)) + (")" + tail);
    QuotesAfterFirst(cells);
    if |cells| == 1 {
      CellRead(cells[0], ")" + tail);
      LastCell(text, cells[0], tail);
      assert [cells[0]] == cells;
    } else {
      var rest := Join(Quotes(cells[1..])) + (")" + tail);
      JoinFirst(Quotes(cells), ")" + tail);
      CellRead(cells[0], "," + rest);
      CellsRead(cells[1..], tail);
      CellBefore(text, cells[0], rest, cells[1..], tail);
      HeadAndTail(cells);
    }
  }

  lemma TupleRead(row: Row, tail: string)
    requires TidyRow(row)
    ensures (Tuple(row) + tail)[0] == '('
    ensures CellsAt((Tuple(row) + tail)[1..]) == Some(([Number(row.rowid)] + row.cells, tail))
  {
    var cells := [Number(row.rowid)] + row.cells;
    assert Quotes(cells) == [row.rowid] + Quotes(row.cells);
    var inside := Join(Quotes(cells)) + (")" + tail);
    assert Tuple(row) + tail == "(" + inside && ("(" + inside)[1..] == inside;
    CellsRead(cells, tail);
  }

  lemma FirstRowRead(row: Row, tail: string)
    requires TidyRow(row)
    ensures RowsAt(Tuple(row) + tail) ==
            if tail == "" then Some([row])
            else if tail[0] != ',' then None
            else
              match RowsAt(tail[1..])
              case None => None
              case Some(rows) => Some([row] + rows)
  {
    TupleRead(row, tail);
    var cells := [Number(row.rowid)] + row.cells;
    assert cells[1..] == row.cells;
  }

  lemma TuplesAfterFirst(rows: seq<Row>)
    requires |rows| > 1
    ensures Join(Tuples(rows)) == Tuple(rows[0]) + ("," + Join(Tuples(rows[1..])))
  {
    assert Tuples(rows)[1..] == Tuples(rows[1..]);
  }

  /** Printed rows read back as they were, whatever their texts hold. */
  lemma {:induction false} RowsRead(rows: seq<Row>)
    requires rows != [] && forall r <- rows :: TidyRow(r)
    ensures RowsAt(Join(Tuples(rows))) == Some(rows)
  {
    assert rows[0] in rows && forall r <- rows[1..] :: r in rows;
    HeadAndTail(rows);
    if |rows| == 1 {
      FirstRowRead(rows[0], "");
      assert Tuple(rows[0]) + "" == Tuple(rows[0]) && [rows[0]] == rows;
    } else {
      TuplesAfterFirst(rows);
      RowsRead(rows[1..]);
      RowBefore(rows[0], rows[1..]);
    }
  }

  lemma RowBefore(row: Row, rows: seq<Row>)
    requires TidyRow(row) && RowsAt(Join(Tuples(rows))) == Some(rows)
    ensures RowsAt(Tuple(row) + ("," + Join(Tuples(rows)))) == Some([row] + rows)
  {
    FirstRowRead(row, "," + Join(Tuples(rows)));
    AfterComma(Join(Tuples(rows)));
  }
}
