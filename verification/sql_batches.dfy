/** The files of the market rehearsal: chunks of twenty rows, each printed as INSERT statements under a byte limit. */
module SqlBatches {
  import opened Packing
  import opened SqlRead
  import opened SqlText
  import opened Wrappers

  const CHUNK: nat := 20
  const LIMIT: nat := 85000

  datatype File = File(sql: seq<string>, expected: seq<Row>)

  /** A tuple and its comma. */
  function Width(): Row -> nat {
    (r: Row) => |Tuple(r)| + 1
  }

  predicate TooLarge(columns: seq<string>, row: Row) {
    |Prefix(columns) + Tuple(row)| >= LIMIT
  }

  predicate Overfull(columns: seq<string>, rows: seq<Row>) {
    exists r <- rows :: TooLarge(columns, r)
  }

  lemma OverfullSplit(columns: seq<string>, a: seq<Row>, b: seq<Row>)
    ensures Overfull(columns, a + b) <==> Overfull(columns, a) || Overfull(columns, b)
  {
    assert forall r <- a :: r in a + b;
    assert forall r <- b :: r in a + b;
  }

  function Room(columns: seq<string>): nat {
    if |Prefix(columns)| < LIMIT then LIMIT - |Prefix(columns)| else 0
  }

  function Insert(columns: seq<string>, rows: seq<Row>): string {
    Prefix(columns) + Join(Tuples(rows))
  }

  function Inserts(columns: seq<string>, groups: seq<seq<Row>>): seq<string> {
    seq(|groups|, k requires 0 <= k < |groups| => Insert(columns, groups[k]))
  }

  function FileOf(columns: seq<string>, rows: seq<Row>): File {
    File(Inserts(columns, Pack(rows, Width(), Room(columns))), rows)
  }

  function Cut(rows: seq<Row>, k: nat): (i: nat)
    ensures i <= |rows|
  {
    if CHUNK * k <= |rows| then CHUNK * k else |rows|
  }

  function Chunk(rows: seq<Row>, k: nat): seq<Row>
    requires Cut(rows, k) <= Cut(rows, k + 1)
  {
    rows[Cut(rows, k)..Cut(rows, k + 1)]
  }

  function Files(columns: seq<string>, rows: seq<Row>, n: nat): seq<File> {
    seq(n, k requires 0 <= k < n => FileOf(columns, Chunk(rows, k)))
  }

  lemma {:induction false} JoinLength(rows: seq<Row>)
    requires rows != []
    ensures |Join(Tuples(rows))| == Size(rows, Width()) - 1
  {
    if |rows| == 1 {
      assert rows[..0] == [];
    } else {
      assert Tuples(rows)[1..] == Tuples(rows[1..]);
      JoinLength(rows[1..]);
      assert rows == [rows[0]] + rows[1..];
      SizeSplit([rows[0]], rows[1..], Width());
      assert [rows[0]][..0] == [];
    }
  }

  lemma TuplesOneMore(rows: seq<Row>, row: Row)
    ensures Tuples(rows + [row]) == Tuples(rows) + [Tuple(row)]
  {
  }

  lemma InsertsOneMore(columns: seq<string>, groups: seq<seq<Row>>, g: seq<Row>)
    ensures Inserts(columns, groups + [g]) == Inserts(columns, groups) + [Insert(columns, g)]
  {
  }

  /** A statement is under the limit exactly when its rows fit in the room the prefix leaves. */
  lemma UnderLimit(columns: seq<string>, rows: seq<Row>)
    requires rows != [] && |Prefix(columns)| < LIMIT
    ensures |Insert(columns, rows)| < LIMIT <==> Size(rows, Width()) <= Room(columns)
  {
    JoinLength(rows);
  }

  /** One pass of the loop: whether the open statement takes another row. */
  lemma RowPlaced(columns: seq<string>, closed: seq<seq<Row>>, current: seq<Row>, row: Row)
    requires |Prefix(columns)| < LIMIT
    ensures Place(closed + [current], row, Width(), Room(columns)) ==
            if |Insert(columns, current + [row])| >= LIMIT then closed + [current] + [[row]]
            else closed + [current + [row]]
  {
    PlaceOpen(closed, current, row, Width(), Room(columns));
    SizeOneMore(current, row, Width());
    UnderLimit(columns, current + [row]);
  }

  lemma RowPacked(columns: seq<string>, before: seq<Row>, closed: seq<seq<Row>>, current: seq<Row>, row: Row)
    requires |Prefix(columns)| < LIMIT && (current == [] ==> closed == [])
    requires Pack(before, Width(), Room(columns)) == WithOpen(closed, current)
    ensures Pack(before + [row], Width(), Room(columns)) ==
            if current != [] && |Insert(columns, current + [row])| >= LIMIT then WithOpen(closed + [current], [row])
            else WithOpen(closed, current + [row])
  {
    assert (before + [row])[..|before|] == before;
    RowPlaced(columns, closed, current, row);
  }

  /** The statements of one chunk; None is the assertion that a row is too large. */
  method Print(columns: seq<string>, rows: seq<Row>) returns (statements: Option<seq<string>>)
    ensures statements == if Overfull(columns, rows) then None else Some(FileOf(columns, rows).sql)
  {
    var done: seq<string>, values: seq<string> := [], [];
    ghost var closed: seq<seq<Row>>, current: seq<Row> := [], [];
    for i := 0 to |rows|
      invariant !Overfull(columns, rows[..i])
      invariant Pack(rows[..i], Width(), Room(columns)) == WithOpen(closed, current)
      invariant done == Inserts(columns, closed) && values == Tuples(current) && (current == [] ==> closed == [])
    {
      var r := rows[i];
      var value := Tuple(r);
      if |Prefix(columns) + value| >= LIMIT {
        assert TooLarge(columns, r) && r in rows;
        return None;
      }
      assert rows[..i + 1] == rows[..i] + [r];
      OverfullSplit(columns, rows[..i], [r]);
      TuplesOneMore(current, r);
      RowPacked(columns, rows[..i], closed, current, r);
      assert Prefix(columns) + Join(values + [value]) == Insert(columns, current + [r]);
      assert |values| == |current|;
      if values != [] && |Prefix(columns) + Join(values + [value])| >= LIMIT {
        InsertsOneMore(columns, closed, current);
        done := done + [Prefix(columns) + Join(values)];
        values := [];
        closed, current := closed + [current], [];
        TuplesOneMore([], r);
        assert [] + [r] == [r];
      }
      values := values + [value];
      current := current + [r];
    }
    assert rows[..|rows|] == rows;
    if values != [] {
      InsertsOneMore(columns, closed, current);
      done := done + [Prefix(columns) + Join(values)];
    }
    return Some(done);
  }

  lemma FilesOneMore(columns: seq<string>, rows: seq<Row>, n: nat)
    ensures Files(columns, rows, n + 1) == Files(columns, rows, n) + [FileOf(columns, Chunk(rows, n))]
  {
  }

  lemma OneMoreChunk(columns: seq<string>, rows: seq<Row>, n: nat)
    ensures rows[..Cut(rows, n + 1)] == rows[..Cut(rows, n)] + Chunk(rows, n)
    ensures Overfull(columns, rows[..Cut(rows, n + 1)]) <==>
            Overfull(columns, rows[..Cut(rows, n)]) || Overfull(columns, Chunk(rows, n))
    ensures Overfull(columns, rows[..Cut(rows, n + 1)]) ==> Overfull(columns, rows)
  {
    var cut := Cut(rows, n + 1);
    OverfullSplit(columns, rows[..Cut(rows, n)], Chunk(rows, n));
    OverfullSplit(columns, rows[..cut], rows[cut..]);
    assert rows[..cut] + rows[cut..] == rows;
  }

  /** The files written; the first chunk with a row that is too large stops the run. */
  method Prepare(columns: seq<string>, rows: seq<Row>) returns (files: seq<File>, ok: bool)
    ensures files == Files(columns, rows, |files|)
    ensures ok <==> !Overfull(columns, rows)
    ensures ok ==> |rows| <= 20 * |files| < |rows| + 20
    ensures !ok ==> Overfull(columns, Chunk(rows, |files|)) && !Overfull(columns, rows[..Cut(rows, |files|)])
  {
    files, ok := [], true;
    var i := 0;
    while i < |rows|
      invariant i == CHUNK * |files| < |rows| + CHUNK
      invariant files == Files(columns, rows, |files|)
      invariant !Overfull(columns, rows[..Cut(rows, |files|)])
      decreases |rows| - i
    {
      ghost var n := |files|;
      var chunk := if i + CHUNK <= |rows| then rows[i..i + CHUNK] else rows[i..];
      assert chunk == Chunk(rows, n);
      OneMoreChunk(columns, rows, n);
      var statements := Print(columns, chunk);
      if statements.None? {
        return files, false;
      }
      FilesOneMore(columns, rows, n);
      files := files + [File(statements.value, chunk)];
      i := i + CHUNK;
    }
    assert rows[..Cut(rows, |files|)] == rows;
  }

  function Chunks(rows: seq<Row>, n: nat): seq<seq<Row>> {
    seq(n, k requires 0 <= k < n => Chunk(rows, k))
  }

  lemma ChunksOneMore(rows: seq<Row>, n: nat)
    ensures Chunks(rows, n + 1) == Chunks(rows, n) + [Chunk(rows, n)]
  {
  }

  /** The chunks carry every row once, in order. */
  lemma {:induction false} ChunksCoverRows(rows: seq<Row>, n: nat)
    ensures Flatten(Chunks(rows, n)) == rows[..Cut(rows, n)]
  {
    if n > 0 {
      ChunksCoverRows(rows, n - 1);
      ChunksOneMore(rows, n - 1);
      FlattenOneMore(Chunks(rows, n - 1), Chunk(rows, n - 1));
      assert rows[..Cut(rows, n)] == rows[..Cut(rows, n - 1)] + Chunk(rows, n - 1);
    }
  }

  /** What a file promises: its statements carry its rows once, in order, each statement is under the limit and holds
      exactly as many tuples as the verifier counts, and no other grouping under the limit needs fewer statements. */
  lemma StatementsCarryRows(columns: seq<string>, rows: seq<Row>, other: seq<seq<Row>>)
    requires columns != [] && (forall c <- columns :: Identifier(c)) && NoColumnKeyword(columns)
    requires forall r <- rows :: Printable(r) && !TooLarge(columns, r)
    requires Flatten(other) == rows && forall g <- other :: g != [] && |Insert(columns, g)| < 85000
    ensures var groups := Pack(rows, Width(), Room(columns)); var sql := FileOf(columns, rows).sql;
            && Flatten(groups) == rows && |sql| == |groups| <= |other|
            && forall k :: 0 <= k < |groups| ==>
                 sql[k] == Insert(columns, groups[k]) && |sql[k]| < 85000 && CountOf(sql[k]) == Some(|groups[k]|)
  {
    var groups := Pack(rows, Width(), Room(columns));
    PackGroups(rows, Width(), Room(columns));
    forall g <- other
      ensures Fits(g, Width(), Room(columns))
    {
      UnderLimit(columns, g);
    }
    PackOptimal(rows, other, Width(), Room(columns));
    ChunkChecks(columns, rows);
    forall k | 0 <= k < |groups|
      ensures Checks(columns, groups[k])
    {
      assert groups[k] in groups;
    }
  }

  // ---- all files together ----

  function Statements(files: seq<File>): seq<string> {
    if files == [] then [] else Statements(files[..|files| - 1]) + files[|files| - 1].sql
  }

  function Expected(files: seq<File>): seq<Row> {
    if files == [] then [] else Expected(files[..|files| - 1]) + files[|files| - 1].expected
  }

  /** The rows of every statement of the first `n` files. */
  function Groups(columns: seq<string>, rows: seq<Row>, n: nat): seq<seq<Row>> {
    if n == 0 then [] else Groups(columns, rows, n - 1) + Pack(Chunk(rows, n - 1), Width(), Room(columns))
  }

  lemma InsertsAppend(columns: seq<string>, a: seq<seq<Row>>, b: seq<seq<Row>>)
    ensures Inserts(columns, a + b) == Inserts(columns, a) + Inserts(columns, b)
  {
  }

  /** A statement of these rows is under the limit, and the verifier counts its rows. */
  ghost predicate Checks(columns: seq<string>, rows: seq<Row>) {
    |Insert(columns, rows)| < 85000 && CountOf(Insert(columns, rows)) == Some(|rows|)
  }

  lemma ChunkChecks(columns: seq<string>, rows: seq<Row>)
    requires columns != [] && (forall c <- columns :: Identifier(c)) && NoColumnKeyword(columns)
    requires forall r <- rows :: Printable(r) && !TooLarge(columns, r)
    ensures var groups := Pack(rows, Width(), Room(columns));
            Flatten(groups) == rows && forall g <- groups :: Checks(columns, g)
  {
    var groups := Pack(rows, Width(), Room(columns));
    PackGroups(rows, Width(), Room(columns));
    forall g | g in groups
      ensures Checks(columns, g)
    {
      GroupFromRows(groups, g);
      PrintedTuplesAreCounted(columns, g);
      SmallGroup(columns, g);
    }
  }

  /** The statements of the first `n` files carry the rows of their chunks. */
  lemma {:induction false} FilesCarryChunks(columns: seq<string>, rows: seq<Row>, n: nat)
    requires columns != [] && (forall c <- columns :: Identifier(c)) && NoColumnKeyword(columns)
    requires forall r <- rows :: Printable(r) && !TooLarge(columns, r)
    ensures var (files, groups) := (Files(columns, rows, n), Groups(columns, rows, n));
            && Expected(files) == rows[..Cut(rows, n)] == Flatten(groups)
            && Statements(files) == Inserts(columns, groups) && forall g <- groups :: Checks(columns, g)
  {
    if n > 0 {
      FilesCarryChunks(columns, rows, n - 1);
      FilesOneMore(columns, rows, n - 1);
      OneMoreChunk(columns, rows, n - 1);
      var more := Pack(Chunk(rows, n - 1), Width(), Room(columns));
      ChunkChecks(columns, Chunk(rows, n - 1));
      FlattenAppend(Groups(columns, rows, n - 1), more);
      InsertsAppend(columns, Groups(columns, rows, n - 1), more);
    }
  }

  ghost predicate Carries(columns: seq<string>, groups: seq<seq<Row>>, statements: seq<string>, rows: seq<Row>) {
    Flatten(groups) == rows && statements == Inserts(columns, groups) && forall g <- groups :: Checks(columns, g)
  }

  lemma EveryRowCut(rows: seq<Row>, n: nat)
    requires |rows| <= CHUNK * n
    ensures rows[..Cut(rows, n)] == rows
  {
  }

  /** What a completed run of `Prepare` promises: the statements of all files together carry every row once, in order,
      each under the limit and with exactly the tuples the verifier counts. */
  lemma PreparedFilesCarryRows(columns: seq<string>, rows: seq<Row>, n: nat) returns (groups: seq<seq<Row>>)
    requires columns != [] && (forall c <- columns :: Identifier(c)) && NoColumnKeyword(columns)
    requires (forall r <- rows :: Printable(r)) && !Overfull(columns, rows) && |rows| <= 20 * n
    ensures Expected(Files(columns, rows, n)) == rows
    ensures Carries(columns, groups, Statements(Files(columns, rows, n)), rows)
  {
    groups := Groups(columns, rows, n);
    EveryRowCut(rows, n);
    FilesCarryChunks(columns, rows, n);
  }

  /** What follows the prefix of a statement reads back as the statement's rows. */
  lemma StatementReadsBack(columns: seq<string>, rows: seq<Row>)
    requires rows != [] && forall r <- rows :: TidyRow(r)
    ensures var sql, n := Insert(columns, rows), |Prefix(columns)|;
            |sql| >= n && sql[..n] == Prefix(columns) && RowsAt(sql[n..]) == Some(rows)
  {
    var sql, n := Insert(columns, rows), |Prefix(columns)|;
    RowsRead(rows);
    assert sql[n..] == Join(Tuples(rows));
  }

  lemma {:induction false} GroupFromRows(groups: seq<seq<Row>>, g: seq<Row>)
    requires g in groups
    ensures forall r <- g :: r in Flatten(groups)
  {
    if g in groups[..|groups| - 1] {
      GroupFromRows(groups[..|groups| - 1], g);
    }
  }

  lemma SmallGroup(columns: seq<string>, g: seq<Row>)
    requires g != [] && Fits(g, Width(), Room(columns)) && forall r <- g :: !TooLarge(columns, r)
    ensures |Insert(columns, g)| < LIMIT
  {
    assert g[0] in g;
    UnderLimit(columns, g);
    if |g| == 1 {
      assert Join(Tuples(g)) == Tuple(g[0]);
    }
  }
}
