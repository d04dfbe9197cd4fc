/** SQL INSERT text: the printer of the market rehearsal and the tuple counter of the backup verifier. Characters
    stand for bytes; identifiers are ASCII. */
module SqlText {
  import opened Wrappers

  // ---- the printer ----

  /** A cell of a source row; the text of a number holds neither quotes nor parentheses. */
  datatype Cell = Null | Number(text: string) | Text(text: string)
  datatype Row = Row(rowid: string, cells: seq<Cell>)

  predicate Plain(text: string) {
    forall c <- text :: c != '\'' && c != '(' && c != ')'
  }

  predicate Printable(row: Row) {
    Plain(row.rowid) && forall c <- row.cells :: c.Number? ==> Plain(c.text)
  }

  function Escape(text: string): string {
    if text == "" then "" else (if text[0] == '\'' then "''" else [text[0]]) + Escape(text[1..])
  }

  function Quote(c: Cell): string {
    match c
    case Null => "NULL"
    case Number(text) => text
    case Text(text) => "'" + Escape(text) + "'"
  }

  function Join(texts: seq<string>): string {
    if texts == [] then ""
    else if |texts| == 1 then texts[0]
    else texts[0] + "," + Join(texts[1..])
  }

  function Quotes(cells: seq<Cell>): seq<string> {
    seq(|cells|, i requires 0 <= i < |cells| => Quote(cells[i]))
  }

  function Tuple(row: Row): string {
    "(" + Join([row.rowid] + Quotes(row.cells)) + ")"
  }

  const VERB := "INSERT OR IGNORE INTO "
  const TARGET := "market_research_restore_20261017"
  const ROWID := "(rowid,"
  const CLOSE := ") VALUES "

  function Prefix(columns: seq<string>): string {
    VERB + TARGET + ROWID + Join(columns) + CLOSE
  }

  // ---- the counter ----

  datatype Mark = Mark(depth: int, quoted: bool, tuples: nat)

  function Read(s: string, m: Mark): Mark {
    if s == "" then m
    else if s[0] == '\'' then
      if m.quoted && |s| > 1 && s[1] == '\'' then Read(s[2..], m)
      else Read(s[1..], m.(quoted := !m.quoted))
    else if m.quoted then Read(s[1..], m)
    else if s[0] == '(' then Read(s[1..], m.(depth := m.depth + 1, tuples := m.tuples + if m.depth == 0 then 1 else 0))
    else if s[0] == ')' then Read(s[1..], m.(depth := m.depth - 1))
    else Read(s[1..], m)
  }

  function Verdict(m: Mark): Option<nat> {
    if m.quoted || m.depth != 0 || m.tuples == 0 then None else Some(m.tuples)
  }

  predicate Word(c: char) {
    'a' <= c <= 'z' || 'A' <= c <= 'Z' || '0' <= c <= '9' || c == '_'
  }

  predicate Space(c: char) {
    9 <= c as int <= 13 || 28 <= c as int <= 32
  }

  function Upper(c: char): char {
    if 'a' <= c <= 'z' then c - 'a' + 'A' else c
  }

  const VALUES := "VALUES"

  predicate Spells(word: string) {
    |word| == 6 && forall k :: 0 <= k < 6 ==> Upper(word[k]) == VALUES[k]
  }

  predicate StartsWithKeyword(text: string) {
    |text| >= 6 && Spells(text[..6])
  }

  /** What follows the first keyword, in any case, at the start of a word; the word may go on. */
  function AfterKeyword(text: string, inWord: bool): Option<string> {
    if text == "" then None
    else if !inWord && StartsWithKeyword(text) then Some(text[6..])
    else AfterKeyword(text[1..], Word(text[0]))
  }

  function SkipSpace(text: string): string {
    if text != "" && Space(text[0]) then SkipSpace(text[1..]) else text
  }

  const START := Mark(0, false, 0)

  function CountOf(sql: string): Option<nat> {
    match AfterKeyword(sql, false)
    case None => None
    case Some(rest) => Verdict(Read(SkipSpace(rest), START))
  }

  /** `tuple_count`; None stands for its ValueError. */
  method TupleCount(sql: string) returns (count: Option<nat>)
    ensures count == CountOf(sql)
  {
    var rest := AfterKeyword(sql, false);
    if rest.None? {
      return None;
    }
    var s := SkipSpace(rest.value);
    var depth, quoted, n: nat, i := 0, false, 0, 0;
    while i < |s|
      invariant 0 <= i <= |s|
      invariant Read(s, START) == Read(s[i..], Mark(depth, quoted, n))
    {
      var c := s[i];
      assert s[i..][1..] == s[i + 1..];
      if c == '\'' {
        if quoted && i + 1 < |s| && s[i + 1] == '\'' {
          assert s[i..][2..] == s[i + 2..];
          i := i + 2;
          continue;
        }
        quoted := !quoted;
      } else if !quoted {
        if c == '(' {
          if depth == 0 {
            n := n + 1;
          }
          depth := depth + 1;
        } else if c == ')' {
          depth := depth - 1;
        }
      }
      i := i + 1;
    }
    return if quoted || depth != 0 || n == 0 then None else Some(n);
  }

  // ---- reading what was printed ----

  lemma {:induction false} ReadPlain(text: string, tail: string, m: Mark)
    requires Plain(text)
    ensures Read(text + tail, m) == Read(tail, m)
  {
    if text == "" {
      assert text + tail == tail;
    } else {
      assert text[0] in text && forall c <- text[1..] :: c in text;
      ReadPlain(text[1..], tail, m);
      assert (text + tail)[1..] == text[1..] + tail;
    }
  }

  predicate NoQuoteFirst(s: string) {
    s == "" || s[0] != '\''
  }

  lemma ReadQuotePair(more: string, m: Mark)
    requires m.quoted
    ensures Read("''" + more, m) == Read(more, m)
  {
    assert ("''" + more)[2..] == more;
  }

  lemma ReadQuotedChar(c: char, more: string, m: Mark)
    requires m.quoted && c != '\''
    ensures Read([c] + more, m) == Read(more, m)
  {
    assert ([c] + more)[1..] == more;
  }

  lemma ReadClosingQuote(tail: string, m: Mark)
    requires m.quoted && NoQuoteFirst(tail)
    ensures Read("" + ("'" + tail), m) == Read(tail, m.(quoted := false))
  {
    assert "" + ("'" + tail) == "'" + tail && ("'" + tail)[1..] == tail;
  }

  lemma EscapeFirst(text: string, rest: string)
    requires text != ""
    ensures Escape(text) + rest == (if text[0] == '\'' then "''" else [text[0]]) + (Escape(text[1..]) + rest)
  {
  }

  /** An escaped text and its closing quote, read from inside the quotes. */
  lemma {:induction false} ReadEscaped(text: string, tail: string, m: Mark)
    requires m.quoted && NoQuoteFirst(tail)
    ensures Read(Escape(text) + ("'" + tail), m) == Read(tail, m.(quoted := false))
  {
    if text == "" {
      ReadClosingQuote(tail, m);
    } else {
      EscapeFirst(text, "'" + tail);
      ReadEscaped(text[1..], tail, m);
      var more := Escape(text[1..]) + ("'" + tail);
      if text[0] == '\'' {
        ReadQuotePair(more, m);
      } else {
        ReadQuotedChar(text[0], more, m);
      }
    }
  }

  /** A cell leaves the counter as it was, as long as no quote follows it. */
  lemma ReadCell(c: Cell, tail: string, m: Mark)
    requires !m.quoted && NoQuoteFirst(tail) && (c.Number? ==> Plain(c.text))
    ensures Read(Quote(c) + tail, m) == Read(tail, m)
  {
    match c {
      case Null => ReadPlain("NULL", tail, m);
      case Number(text) => ReadPlain(text, tail, m);
      case Text(text) =>
        var inside := Escape(text) + ("'" + tail);
        assert Quote(c) + tail == "'" + inside && ("'" + inside)[1..] == inside;
        ReadEscaped(text, tail, m.(quoted := true));
        assert m.(quoted := true).(quoted := false) == m;
    }
  }

  lemma JoinFirst(texts: seq<string>, tail: string)
    requires |texts| > 1
    ensures Join(texts) + tail == texts[0] + ("," + (Join(texts[1..]) + tail))
  {
  }

  lemma AfterComma(rest: string)
    ensures ("," + rest)[1..] == rest
  {
  }

  lemma ReadComma(rest: string, m: Mark)
    ensures Read("," + rest, m) == Read(rest, m)
  {
    AfterComma(rest);
  }

  lemma QuotesAfterFirst(cells: seq<Cell>)
    requires cells != []
    ensures Quotes(cells)[0] == Quote(cells[0]) && Quotes(cells)[1..] == Quotes(cells[1..])
  {
  }

  lemma {:induction false} ReadCells(cells: seq<Cell>, tail: string, m: Mark)
    requires !m.quoted && NoQuoteFirst(tail) && forall c <- cells :: c.Number? ==> Plain(c.text)
    ensures Read(Join(Quotes(cells)) + tail, m) == Read(tail, m)
  {
    if cells == [] {
      assert Join(Quotes(cells)) + tail == tail;
    } else {
      assert cells[0] in cells && forall c <- cells[1..] :: c in cells;
      QuotesAfterFirst(cells);
      if |cells| == 1 {
        ReadCell(cells[0], tail, m);
      } else {
        var rest := Join(Quotes(cells[1..])) + tail;
        JoinFirst(Quotes(cells), tail);
        ReadCell(cells[0], "," + rest, m);
        ReadComma(rest, m);
        ReadCells(cells[1..], tail, m);
      }
    }
  }

  function Opened(m: Mark): Mark {
    m.(depth := m.depth + 1, tuples := m.tuples + if m.depth == 0 then 1 else 0)
  }

  /** A printed tuple is counted once at depth zero and not at all elsewhere, and leaves the depth as it was. */
  lemma ReadTuple(row: Row, tail: string, m: Mark)
    requires !m.quoted && Printable(row)
    ensures Read(Tuple(row) + tail, m) == Read(tail, Opened(m).(depth := m.depth))
  {
    var cells := [Number(row.rowid)] + row.cells;
    var close := ")" + tail;
    assert Quotes(cells) == [row.rowid] + Quotes(row.cells);
    var inside := Join(Quotes(cells)) + close;
    assert Tuple(row) + tail == "(" + inside && ("(" + inside)[1..] == inside && close[1..] == tail;
    ReadCells(cells, close, Opened(m));
  }

  function Tuples(rows: seq<Row>): seq<string> {
    seq(|rows|, i requires 0 <= i < |rows| => Tuple(rows[i]))
  }

  lemma {:induction false} ReadTuples(rows: seq<Row>, m: Mark)
    requires !m.quoted && forall r <- rows :: Printable(r)
    ensures Read(Join(Tuples(rows)), m) == m.(tuples := m.tuples + if m.depth == 0 then |rows| else 0)
  {
    if rows != [] {
      assert rows[0] in rows && forall r <- rows[1..] :: r in rows;
      assert Tuples(rows)[1..] == Tuples(rows[1..]);
      var m' := Opened(m).(depth := m.depth);
      if |rows| == 1 {
        ReadTuple(rows[0], "", m);
        assert Tuple(rows[0]) + "" == Tuple(rows[0]);
      } else {
        var rest := Join(Tuples(rows[1..]));
        assert Join(Tuples(rows)) == Tuple(rows[0]) + ("," + rest) && ("," + rest)[1..] == rest;
        ReadTuple(rows[0], "," + rest, m);
        ReadTuples(rows[1..], m');
      }
    }
  }

  // ---- finding the keyword ----

  predicate Identifier(name: string) {
    name != "" && forall c <- name :: Word(c)
  }

  predicate NoColumnKeyword(columns: seq<string>) {
    forall c <- columns :: !StartsWithKeyword(c)
  }

  predicate NoV(text: string) {
    forall c <- text :: Upper(c) != 'V'
  }

  lemma NotSpelled(word: string, k: nat)
    requires k < |word| && !Word(word[k])
    ensures !Spells(word)
  {
    assert forall j :: 0 <= j < 6 ==> 'A' <= VALUES[j] <= 'Z';
    assert !('A' <= Upper(word[k]) <= 'Z');
  }

  lemma NotAKeyword(text: string)
    requires text != "" && Upper(text[0]) != 'V'
    ensures !StartsWithKeyword(text)
  {
    assert VALUES[0] == 'V' && (|text| >= 6 ==> text[..6][0] == text[0]);
  }

  /** Whether the keyword starts here is decided inside the word. */
  lemma KeywordInName(name: string, tail: string)
    requires tail != "" && !Word(tail[0])
    ensures StartsWithKeyword(name + tail) <==> StartsWithKeyword(name)
  {
    var text := name + tail;
    if |name| >= 6 {
      assert text[..6] == name[..6];
    } else if |text| >= 6 {
      assert text[..6][|name|] == tail[0];
      NotSpelled(text[..6], |name|);
    }
  }

  lemma {:induction false} PassedNoV(text: string, tail: string, inWord: bool)
    requires NoV(text) && text != ""
    ensures AfterKeyword(text + tail, inWord) == AfterKeyword(tail, Word(text[|text| - 1]))
  {
    assert text[0] in text && forall c <- text[1..] :: c in text;
    NotAKeyword(text + tail);
    assert (text + tail)[1..] == text[1..] + tail;
    if |text| > 1 {
      PassedNoV(text[1..], tail, Word(text[0]));
    }
  }

  lemma {:induction false} PassedInWord(text: string, tail: string)
    requires forall c <- text :: Word(c)
    ensures AfterKeyword(text + tail, true) == AfterKeyword(tail, true)
  {
    if text == "" {
      assert text + tail == tail;
    } else {
      assert text[0] in text && forall c <- text[1..] :: c in text;
      assert (text + tail)[1..] == text[1..] + tail;
      PassedInWord(text[1..], tail);
    }
  }

  lemma PassedName(name: string, tail: string)
    requires Identifier(name) && !StartsWithKeyword(name) && tail != "" && !Word(tail[0])
    ensures AfterKeyword(name + tail, false) == AfterKeyword(tail, true)
  {
    assert name[0] in name && forall c <- name[1..] :: c in name;
    KeywordInName(name, tail);
    assert (name + tail)[1..] == name[1..] + tail;
    PassedInWord(name[1..], tail);
  }

  lemma PassedComma(rest: string)
    ensures AfterKeyword("," + rest, true) == AfterKeyword(rest, false)
  {
    AfterComma(rest);
    NotAKeyword("," + rest);
  }

  /** A list with no such column is passed over. */
  lemma {:induction false} PassedNames(columns: seq<string>, tail: string)
    requires columns != [] && (forall c <- columns :: Identifier(c)) && NoColumnKeyword(columns)
    requires tail != "" && !Word(tail[0])
    ensures AfterKeyword(Join(columns) + tail, false) == AfterKeyword(tail, true)
  {
    assert columns[0] in columns && forall c <- columns[1..] :: c in columns;
    if |columns| == 1 {
      PassedName(columns[0], tail);
    } else {
      var rest := Join(columns[1..]) + tail;
      JoinFirst(columns, tail);
      PassedName(columns[0], "," + rest);
      PassedComma(rest);
      PassedNames(columns[1..], tail);
    }
  }

  lemma {:induction false} NamesArePlain(columns: seq<string>)
    requires forall c <- columns :: Identifier(c)
    ensures Plain(Join(columns)) && (columns != [] ==> Join(columns) != "" && !Space(Join(columns)[0]))
    ensures forall c <- Join(columns) :: !Space(c)
  {
    if columns != [] {
      assert columns[0] in columns && forall c <- columns[1..] :: c in columns;
      assert columns[0][0] in columns[0];
      NamesArePlain(columns[1..]);
    }
  }

  lemma KeywordLater(columns: seq<string>)
    requires !NoColumnKeyword(columns) && columns != [] && !StartsWithKeyword(columns[0])
    ensures !NoColumnKeyword(columns[1..]) && |columns| > 1
  {
    var bad :| bad in columns && StartsWithKeyword(bad);
    assert columns == [columns[0]] + columns[1..];
    assert bad in columns[1..];
  }

  lemma KeywordInList(columns: seq<string>, tail: string)
    requires columns != [] && StartsWithKeyword(columns[0])
    ensures |Join(columns)| >= 6 && StartsWithKeyword(Join(columns) + tail)
    ensures (Join(columns) + tail)[6..] == Join(columns)[6..] + tail
  {
    assert (Join(columns) + tail)[..6] == columns[0][..6];
  }

  /** The first column that starts with the keyword is taken for it, wherever it stands in the list. */
  lemma {:induction false} TakenForKeyword(columns: seq<string>, tail: string) returns (rest: string)
    requires (forall c <- columns :: Identifier(c)) && !NoColumnKeyword(columns)
    ensures Plain(rest) && forall c <- rest :: !Space(c)
    ensures AfterKeyword(Join(columns) + tail, false) == Some(rest + tail)
  {
    assert columns[0] in columns && forall c <- columns[1..] :: c in columns;
    if StartsWithKeyword(columns[0]) {
      NamesArePlain(columns);
      KeywordInList(columns, tail);
      rest := Join(columns)[6..];
      assert forall c <- rest :: c in Join(columns);
    } else {
      KeywordLater(columns);
      JoinFirst(columns, tail);
      PassedName(columns[0], "," + (Join(columns[1..]) + tail));
      PassedComma(Join(columns[1..]) + tail);
      rest := TakenForKeyword(columns[1..], tail);
    }
  }

  /** From the end of the list the keyword is found where it was printed. */
  lemma ListCloses(tuples: string, inWord: bool)
    ensures AfterKeyword(CLOSE + tuples, inWord) == Some(" " + tuples)
  {
    var before, keyword := ") ", VALUES + (" " + tuples);
    assert CLOSE + tuples == before + keyword;
    PassedNoV(before, keyword, inWord);
    assert keyword[..6] == VALUES && keyword[6..] == " " + tuples;
    assert Spells(VALUES);
  }

  lemma HeadHasNoV()
    ensures NoV(VERB) && NoV(ROWID)
  {
    assert 'v' !in VERB && 'V' !in VERB;
    assert 'v' !in ROWID && 'V' !in ROWID;
  }

  lemma TargetHasNoV()
    ensures NoV(TARGET)
  {
    assert 'v' !in TARGET && 'V' !in TARGET;
  }

  lemma HeadPassed(columns: seq<string>, tuples: string)
    ensures AfterKeyword(Prefix(columns) + tuples, false) == AfterKeyword(Join(columns) + (CLOSE + tuples), false)
  {
    var rest := Join(columns) + (CLOSE + tuples);
    HeadHasNoV();
    TargetHasNoV();
    assert Prefix(columns) + tuples == VERB + (TARGET + (ROWID + rest));
    PassedNoV(VERB, TARGET + (ROWID + rest), false);
    PassedNoV(TARGET, ROWID + rest, Word(VERB[|VERB| - 1]));
    PassedNoV(ROWID, rest, Word(TARGET[|TARGET| - 1]));
  }

  /** Started inside the column list, the counter meets the closing parenthesis first and never gets level again. */
  lemma StartedInside(rest: string, rows: seq<Row>)
    requires Plain(rest) && forall r <- rows :: Printable(r)
    ensures Verdict(Read(rest + (CLOSE + Join(Tuples(rows))), START)) == None
  {
    var below, tuples := Mark(-1, false, 0), Join(Tuples(rows));
    var words := " VALUES ";
    ReadPlain(rest, CLOSE + tuples, START);
    assert CLOSE + tuples == ")" + (words + tuples) && (CLOSE + tuples)[1..] == words + tuples;
    ReadPlain(words, tuples, below);
    ReadTuples(rows, below);
  }

  lemma SkipsOneSpace(tuples: string)
    requires tuples != "" && tuples[0] == '('
    ensures SkipSpace(" " + tuples) == tuples
  {
    assert (" " + tuples)[1..] == tuples;
  }

  /** The verifier's counter agrees with the printer on every statement, whatever the texts hold, exactly when no
      column name starts with the keyword; otherwise it refuses the statement. */
  lemma PrintedTuplesAreCounted(columns: seq<string>, rows: seq<Row>)
    requires columns != [] && (forall c <- columns :: Identifier(c)) && rows != [] && forall r <- rows :: Printable(r)
    ensures CountOf(Prefix(columns) + Join(Tuples(rows))) == if NoColumnKeyword(columns) then Some(|rows|) else None
  {
    var tuples := Join(Tuples(rows));
    assert tuples[0] == Tuple(rows[0])[0] == '(';
    HeadPassed(columns, tuples);
    assert (CLOSE + tuples)[0] == CLOSE[0] == ')';
    if NoColumnKeyword(columns) {
      PassedNames(columns, CLOSE + tuples);
      ListCloses(tuples, true);
      SkipsOneSpace(tuples);
      ReadTuples(rows, START);
    } else {
      var rest := TakenForKeyword(columns, CLOSE + tuples);
      assert !Space((rest + (CLOSE + tuples))[0]);
      StartedInside(rest, rows);
    }
  }

  /** The letters of the keyword, each in either case. */
  lemma SpelledByLetters(word: string)
    ensures Spells(word) <==>
            && |word| == 6 && word[0] in {'V', 'v'} && word[1] in {'A', 'a'} && word[2] in {'L', 'l'}
            && word[3] in {'U', 'u'} && word[4] in {'E', 'e'} && word[5] in {'S', 's'}
  {
    if |word| == 6 {
      assert forall c: char, u <- "VALUES" :: Upper(c) == u <==> c == u || c == u - 'A' + 'a';
    }
  }

  /** Tab to carriage return, the four separators, and the blank. */
  lemma SpaceByCode(c: char)
    ensures Space(c) <==> c as int in {9, 10, 11, 12, 13, 28, 29, 30, 31, 32}
  {
  }

  /** How every statement begins. */
  lemma PrefixByText(columns: seq<string>)
    ensures Prefix(columns) ==
            "INSERT OR IGNORE INTO " + "market_research_restore_20261017" + "(rowid," + Join(columns) + ") VALUES "
  {
  }
}
