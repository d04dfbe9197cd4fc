/** Splitting an SQL export into bounded import files at statement ends. */
module Partition {
  import opened Binary
  import opened Packing

  /** What the splitter asks of the SQL grammar: is this text a complete statement, does it (comments stripped) open
      or close a transaction, is it blank? */
  datatype Grammar = Grammar(complete: Bytes -> bool, transaction: Bytes -> bool, blank: Bytes -> bool)

  datatype Refusal = UnqualifiedBound | Oversized | Transaction | Truncated | ChecksumMismatch
  datatype Result = Refused(why: Refusal) | Split(parts: seq<Bytes>, statements: nat)

  function Length(): Bytes -> nat {
    (b: Bytes) => |b|
  }

  // ---- statements ----

  datatype Scanned = Stopped(why: Refusal) | Scanned(statements: seq<Bytes>, buffer: Bytes)

  /** The line loop: lines accumulate until they form a complete statement. */
  function Scan(lines: seq<Bytes>, g: Grammar, bound: nat): Scanned {
    if lines == [] then Scanned([], [])
    else
      match Scan(lines[..|lines| - 1], g, bound)
      case Stopped(why) => Stopped(why)
      case Scanned(statements, buffer) => Line(statements, buffer + lines[|lines| - 1], g, bound)
  }

  function Line(statements: seq<Bytes>, buffer: Bytes, g: Grammar, bound: nat): Scanned {
    if |buffer| > bound then Stopped(Oversized)
    else if !g.complete(buffer) then Scanned(statements, buffer)
    else if g.transaction(buffer) then Stopped(Transaction)
    else Scanned(statements + [buffer], [])
  }

  predicate Cut(s: Scanned, text: Bytes, g: Grammar, bound: nat) {
    s.Scanned? ==>
      && Flatten(s.statements) + s.buffer == text && |s.buffer| <= bound
      && forall b <- s.statements :: 0 < |b| <= bound && g.complete(b) && !g.transaction(b)
  }

  /** The statements and the rest are the source; each statement is complete and within the bound. */
  lemma {:induction false} ScanCutsSource(lines: seq<Bytes>, g: Grammar, bound: nat)
    requires forall l <- lines :: l != []
    ensures Cut(Scan(lines, g, bound), Flatten(lines), g, bound)
  {
    if lines != [] {
      var earlier, line := lines[..|lines| - 1], lines[|lines| - 1];
      assert line in lines && forall l <- earlier :: l in lines;
      ScanCutsSource(earlier, g, bound);
      var s := Scan(earlier, g, bound);
      if s.Scanned? {
        LineCuts(s.statements, s.buffer, line, Flatten(earlier), g, bound);
      }
    }
  }

  lemma LineCuts(statements: seq<Bytes>, buffer: Bytes, line: Bytes, text: Bytes, g: Grammar, bound: nat)
    requires Cut(Scanned(statements, buffer), text, g, bound) && line != []
    ensures Cut(Line(statements, buffer + line, g, bound), text + line, g, bound)
  {
    var b := buffer + line;
    assert Flatten(statements) + b == text + line;
    if |b| <= bound && g.complete(b) && !g.transaction(b) {
      FlattenOneMore(statements, b);
      assert Flatten(statements + [b]) + [] == text + line;
      forall c | c in statements + [b]
        ensures 0 < |c| <= bound && g.complete(c) && !g.transaction(c)
      {
        assert c in statements || c == b;
      }
    }
  }

  // ---- where the cuts fall ----

  /** No text these lines begin with, or are, is complete. */
  predicate NothingComplete(lines: seq<Bytes>, g: Grammar) {
    forall k :: 0 < k <= |lines| ==> !g.complete(Flatten(lines[..k]))
  }

  /** Whole lines that are a complete statement, of which no shorter run is. */
  predicate Shortest(run: seq<Bytes>, g: Grammar) {
    run != [] && g.complete(Flatten(run)) && NothingComplete(run[..|run| - 1], g)
  }

  /** The lines cut into the statements' runs and the rest. */
  ghost predicate CutInto(lines: seq<Bytes>, runs: seq<seq<Bytes>>, rest: seq<Bytes>, s: Scanned, g: Grammar) {
    && s.Scanned? && Flatten(runs) + rest == lines
    && s.statements == Join(runs) && s.buffer == Flatten(rest)
    && (forall run <- runs :: Shortest(run, g)) && NothingComplete(rest, g)
  }

  /** Cuts fall at line ends only, and as early as they can. */
  lemma {:induction false} StatementsAreShortest(lines: seq<Bytes>, g: Grammar, bound: nat)
    returns (runs: seq<seq<Bytes>>, rest: seq<Bytes>)
    requires Scan(lines, g, bound).Scanned?
    ensures CutInto(lines, runs, rest, Scan(lines, g, bound), g)
  {
    if lines == [] {
      runs, rest := [], [];
    } else {
      var earlier, line := lines[..|lines| - 1], lines[|lines| - 1];
      runs, rest := StatementsAreShortest(earlier, g, bound);
      assert earlier + [line] == lines;
      runs, rest := NextLineCuts(earlier, line, runs, rest, Scan(earlier, g, bound), g, bound);
    }
  }

  lemma NextLineCuts(earlier: seq<Bytes>, line: Bytes, runs: seq<seq<Bytes>>, rest: seq<Bytes>, s: Scanned,
                     g: Grammar, bound: nat) returns (runs': seq<seq<Bytes>>, rest': seq<Bytes>)
    requires CutInto(earlier, runs, rest, s, g) && Line(s.statements, s.buffer + line, g, bound).Scanned?
    ensures CutInto(earlier + [line], runs', rest', Line(s.statements, s.buffer + line, g, bound), g)
  {
    runs', rest' := runs, rest + [line];
    FlattenOneMore(rest, line);
    assert Flatten(runs) + (rest + [line]) == earlier + [line];
    if g.complete(Flatten(rest + [line])) {
      RunComplete(runs, rest, line, g);
      assert Flatten(runs + [rest + [line]]) + [] == earlier + [line];
      runs', rest' := runs + [rest + [line]], [];
    } else {
      NothingCompleteOneMore(rest, line, g);
    }
  }

  lemma RunComplete(runs: seq<seq<Bytes>>, rest: seq<Bytes>, line: Bytes, g: Grammar)
    requires (forall run <- runs :: Shortest(run, g)) && NothingComplete(rest, g) && g.complete(Flatten(rest + [line]))
    ensures var more := runs + [rest + [line]];
            && Flatten(more) == Flatten(runs) + (rest + [line]) && Join(more) == Join(runs) + [Flatten(rest + [line])]
            && forall run <- more :: Shortest(run, g)
  {
    assert (rest + [line])[..|rest|] == rest;
    FlattenOneMore(runs, rest + [line]);
    JoinOneMore(runs, rest + [line]);
  }

  lemma NothingCompleteOneMore(lines: seq<Bytes>, line: Bytes, g: Grammar)
    requires NothingComplete(lines, g) && !g.complete(Flatten(lines + [line]))
    ensures NothingComplete(lines + [line], g)
  {
    forall k | 0 < k <= |lines| + 1
      ensures !g.complete(Flatten((lines + [line])[..k]))
    {
      assert (lines + [line])[..k] == if k <= |lines| then lines[..k] else lines + [line];
    }
  }

  /** The lines cut into complete statements, as short as they can be, within the bound and free of transactions, and
      a rest within the bound that no statement begins. */
  ghost predicate Sliced(lines: seq<Bytes>, runs: seq<seq<Bytes>>, rest: seq<Bytes>, g: Grammar, bound: nat) {
    && Flatten(runs) + rest == lines
    && (forall run <- runs :: Shortest(run, g) && |Flatten(run)| <= bound && !g.transaction(Flatten(run)))
    && NothingComplete(rest, g) && |Flatten(rest)| <= bound
  }

  lemma NothingCompleteButLast(lines: seq<Bytes>, g: Grammar)
    requires lines != [] && NothingComplete(lines, g)
    ensures NothingComplete(lines[..|lines| - 1], g) && !g.complete(Flatten(lines))
  {
    var front := lines[..|lines| - 1];
    assert lines[..|lines|] == lines;
    forall k | 0 < k <= |front|
      ensures !g.complete(Flatten(front[..k]))
    {
      assert front[..k] == lines[..k];
    }
  }

  /** However the lines are sliced that way, the loop finds these slices. */
  lemma {:induction false} SlicedScans(lines: seq<Bytes>, runs: seq<seq<Bytes>>, rest: seq<Bytes>, g: Grammar,
                                       bound: nat)
    requires Sliced(lines, runs, rest, g, bound)
    ensures Scan(lines, g, bound) == Scanned(Join(runs), Flatten(rest))
    decreases |lines|
  {
    assert runs != [] ==> runs[|runs| - 1] in runs;
    if lines == [] {
      assert runs == [];
    } else {
      var earlier, line := lines[..|lines| - 1], lines[|lines| - 1];
      if rest != [] {
        var front := rest[..|rest| - 1];
        NothingCompleteButLast(rest, g);
        assert Flatten(runs) + front == earlier && rest == front + [line];
        SlicedScans(earlier, runs, front, g, bound);
      } else {
        var done, run := runs[..|runs| - 1], runs[|runs| - 1];
        assert run in runs && forall r <- done :: r in runs;
        var front := run[..|run| - 1];
        assert Flatten(done) + front == earlier && run == front + [line];
        SlicedScans(earlier, done, front, g, bound);
        assert runs == done + [run];
        JoinOneMore(done, run);
      }
    }
  }

  // ---- parts ----

  function Join(groups: seq<seq<Bytes>>): seq<Bytes> {
    seq(|groups|, i requires 0 <= i < |groups| => Flatten(groups[i]))
  }

  /** Whatever is left after the last statement goes to the last part. */
  function WithRest(parts: seq<Bytes>, rest: Bytes): seq<Bytes> {
    if rest == [] then parts
    else if parts == [] then [rest]
    else parts[..|parts| - 1] + [parts[|parts| - 1] + rest]
  }

  function PartsOf(statements: seq<Bytes>, rest: Bytes, bound: nat): seq<Bytes> {
    WithRest(Join(Pack(statements, Length(), bound)), rest)
  }

  function PartitionOf(lines: seq<Bytes>, g: Grammar, expected: Bytes, bound: nat): Result {
    if !(1024 <= bound <= 100 * 1024 * 1024) then Refused(UnqualifiedBound)
    else
      match Scan(lines, g, bound)
      case Stopped(why) => Refused(why)
      case Scanned(statements, rest) =>
        if rest != [] && !g.blank(rest) then Refused(Truncated)
        else if Flatten(lines) != expected then Refused(ChecksumMismatch)
        else Split(PartsOf(statements, rest, bound), |statements|)
  }

  /** `expected` is the content the accepted report's length and checksum identify. */
  method Partition(lines: seq<Bytes>, g: Grammar, expected: Bytes, bound: nat) returns (result: Result)
    requires forall l <- lines :: l != []
    ensures result == PartitionOf(lines, g, expected, bound)
  {
    if !(1024 <= bound <= 100 * 1024 * 1024) {
      return Refused(UnqualifiedBound);
    }
    var parts: seq<Bytes>, buffer: Bytes, current: Bytes, total: Bytes := [], [], [], [];
    var statements := 0;
    ghost var done: seq<Bytes> := [];
    for i := 0 to |lines|
      invariant Scan(lines[..i], g, bound) == Scanned(done, buffer) && statements == |done|
      invariant total == Flatten(lines[..i])
      invariant Join(Pack(done, Length(), bound)) == WithOpen(parts, current) && (current == [] ==> parts == [])
    {
      var line := lines[i];
      assert lines[..i + 1][..i] == lines[..i] && line in lines;
      total := total + line;
      buffer := buffer + line;
      if |buffer| > bound {
        StopSpreads(lines, i + 1, g, bound);
        return Refused(Oversized);
      }
      if g.complete(buffer) {
        if g.transaction(buffer) {
          StopSpreads(lines, i + 1, g, bound);
          return Refused(Transaction);
        }
        parts, current := Append(done, parts, current, buffer, bound);
        done := done + [buffer];
        buffer := [];
        statements := statements + 1;
      }
    }
    assert lines[..|lines|] == lines;
    if buffer != [] && !g.blank(buffer) {
      return Refused(Truncated);
    }
    RestJoins(parts, current, buffer);
    current := current + buffer;
    if current != [] {
      parts := parts + [current];
    }
    if total != expected {
      return Refused(ChecksumMismatch);
    }
    return Split(parts, statements);
  }

  /** Flush the open part if the statement does not fit, then append the statement. */
  method Append(ghost done: seq<Bytes>, parts: seq<Bytes>, current: Bytes, b: Bytes, bound: nat)
    returns (parts': seq<Bytes>, current': Bytes)
    requires Join(Pack(done, Length(), bound)) == WithOpen(parts, current) && (current == [] ==> parts == [])
    requires 0 < |b| <= bound
    ensures Join(Pack(done + [b], Length(), bound)) == WithOpen(parts', current') && current' != []
  {
    parts', current' := parts, current;
    if |current'| + |b| > bound {
      if current' != [] {
        parts' := parts' + [current'];
      }
      current' := [];
    }
    current' := current' + b;
    JoinStep(done, parts, current, b, bound);
  }

  lemma {:induction false} StopSpreads(lines: seq<Bytes>, i: nat, g: Grammar, bound: nat)
    requires i <= |lines| && Scan(lines[..i], g, bound).Stopped?
    ensures Scan(lines, g, bound) == Scan(lines[..i], g, bound)
  {
    if i == |lines| {
      assert lines[..i] == lines;
    } else {
      assert lines[..|lines| - 1][..i] == lines[..i];
      StopSpreads(lines[..|lines| - 1], i, g, bound);
    }
  }

  lemma {:induction false} SizeIsLength(group: seq<Bytes>)
    ensures Size(group, Length()) == |Flatten(group)|
  {
    if group != [] {
      SizeIsLength(group[..|group| - 1]);
    }
  }

  lemma JoinOneMore(groups: seq<seq<Bytes>>, group: seq<Bytes>)
    ensures Join(groups + [group]) == Join(groups) + [Flatten(group)]
  {
  }

  lemma RestJoins(parts: seq<Bytes>, current: Bytes, rest: Bytes)
    requires current == [] ==> parts == []
    ensures WithOpen(parts, current + rest) == WithRest(WithOpen(parts, current), rest)
  {
    if current == [] {
      assert current + rest == rest;
    } else if rest == [] {
      assert current + rest == current;
    } else {
      assert (parts + [current])[..|parts|] == parts;
    }
  }

  lemma SameLast<T>(xs: seq<T>, x: T, ys: seq<T>, y: T)
    requires xs + [x] == ys + [y]
    ensures xs == ys && x == y
  {
    assert xs == (xs + [x])[..|xs|] && ys == (ys + [y])[..|ys|] && |xs| == |ys|;
    assert (xs + [x])[|xs|] == x && (ys + [y])[|ys|] == y;
  }

  lemma JoinStep(done: seq<Bytes>, parts: seq<Bytes>, current: Bytes, b: Bytes, bound: nat)
    requires Join(Pack(done, Length(), bound)) == WithOpen(parts, current) && (current == [] ==> parts == [])
    requires |b| <= bound
    ensures Join(Pack(done + [b], Length(), bound)) ==
            if |current| + |b| > bound then parts + [current] + [b] else parts + [current + b]
  {
    var groups := Pack(done, Length(), bound);
    assert (done + [b])[..|done|] == done;
    FlattenOneMore([], b);
    assert [] + [b] == [b] && Flatten([b]) == b;
    if groups == [] {
      assert WithOpen(parts, current) == [];
      JoinOneMore([], [b]);
      assert [] + [[b]] == [[b]];
    } else {
      var closed, open := groups[..|groups| - 1], groups[|groups| - 1];
      assert groups == closed + [open];
      JoinOneMore(closed, open);
      assert current != [];
      SameLast(parts, current, Join(closed), Flatten(open));
      SizeIsLength(open);
      PlaceOpen(closed, open, b, Length(), bound);
      JoinOneMore(closed + [open], [b]);
      JoinOneMore(closed, open + [b]);
      FlattenOneMore(open, b);
    }
  }

  // ---- the laws ----

  lemma {:induction false} FlattenJoin(groups: seq<seq<Bytes>>)
    ensures Flatten(Join(groups)) == Flatten(Flatten(groups))
  {
    if groups != [] {
      var front, last := groups[..|groups| - 1], groups[|groups| - 1];
      FlattenJoin(front);
      assert Join(groups)[..|groups| - 1] == Join(front);
      FlattenAppend(Flatten(front), last);
    }
  }

  lemma FlattenWithRest(parts: seq<Bytes>, rest: Bytes)
    ensures Flatten(WithRest(parts, rest)) == Flatten(parts) + rest
  {
    if rest != [] {
      if parts == [] {
        FlattenOneMore([], rest);
      } else {
        FlattenOneMore(parts[..|parts| - 1], parts[|parts| - 1] + rest);
      }
    }
  }

  lemma SlicesOfScan(lines: seq<Bytes>, g: Grammar, bound: nat) returns (runs: seq<seq<Bytes>>, rest: seq<Bytes>)
    requires (forall l <- lines :: l != []) && Scan(lines, g, bound).Scanned?
    ensures Sliced(lines, runs, rest, g, bound) && Flatten(rest) == Scan(lines, g, bound).buffer
  {
    runs, rest := StatementsAreShortest(lines, g, bound);
    ScanCutsSource(lines, g, bound);
    forall i | 0 <= i < |runs|
      ensures |Flatten(runs[i])| <= bound && !g.transaction(Flatten(runs[i]))
    {
      assert Join(runs)[i] == Flatten(runs[i]);
    }
  }

  ghost predicate Splittable(lines: seq<Bytes>, g: Grammar, bound: nat) {
    exists runs, rest :: Sliced(lines, runs, rest, g, bound) && (Flatten(rest) != [] ==> g.blank(Flatten(rest)))
  }

  /** A source is split exactly when the bound is qualified, the bytes are the expected ones, and the lines can be cut
      into complete statements within the bound, none of them a transaction, and a blank rest. */
  lemma SplitsExactlyWhen(lines: seq<Bytes>, g: Grammar, expected: Bytes, bound: nat)
    requires forall l <- lines :: l != []
    ensures PartitionOf(lines, g, expected, bound).Split? <==>
            1024 <= bound <= 104857600 && Flatten(lines) == expected && Splittable(lines, g, bound)
  {
    if Scan(lines, g, bound).Scanned? {
      var runs, rest := SlicesOfScan(lines, g, bound);
    }
    if Splittable(lines, g, bound) {
      var runs, rest :| Sliced(lines, runs, rest, g, bound) && (Flatten(rest) != [] ==> g.blank(Flatten(rest)));
      SlicedScans(lines, runs, rest, g, bound);
    }
  }

  /** Concatenated in order, the parts are the source, byte for byte. */
  lemma PartsLossless(lines: seq<Bytes>, g: Grammar, expected: Bytes, bound: nat)
    requires (forall l <- lines :: l != []) && PartitionOf(lines, g, expected, bound).Split?
    ensures Flatten(PartitionOf(lines, g, expected, bound).parts) == Flatten(lines) == expected
  {
    var s := Scan(lines, g, bound);
    var groups := Pack(s.statements, Length(), bound);
    ScanCutsSource(lines, g, bound);
    PackGroups(s.statements, Length(), bound);
    FlattenJoin(groups);
    FlattenWithRest(Join(groups), s.buffer);
  }

  function LastSize(groups: seq<seq<Bytes>>): nat {
    if groups == [] then 0 else |Flatten(groups[|groups| - 1])|
  }

  /** The parts are the groups of statements; the rest, blank if there is any, is in the last part. All parts are
      within the bound exactly when the last group leaves room for the rest. */
  predicate WholeStatements(parts: seq<Bytes>, groups: seq<seq<Bytes>>, rest: Bytes, g: Grammar, bound: nat) {
    && parts == WithRest(Join(groups), rest)
    && (forall group <- groups :: |Flatten(group)| <= bound)
    && (rest != [] ==> g.blank(rest)) && |rest| <= bound
    && ((forall p <- parts :: |p| <= bound) <==> LastSize(groups) + |rest| <= bound)
  }

  lemma RoomForRest(parts: seq<Bytes>, rest: Bytes, bound: nat)
    requires (forall p <- parts :: |p| <= bound) && |rest| <= bound
    ensures (forall p <- WithRest(parts, rest) :: |p| <= bound)
            <==> parts == [] || |parts[|parts| - 1]| + |rest| <= bound
  {
    if parts != [] {
      assert parts[|parts| - 1] in parts;
      if rest != [] {
        var front, last := parts[..|parts| - 1], parts[|parts| - 1] + rest;
        assert last in front + [last];
        assert forall p <- front + [last] :: p in parts || p == last;
      }
    }
  }

  /** Parts break at the ends of whole statements only, and exactly then keep the bound when the last group has room. */
  lemma PartsAreWholeStatements(lines: seq<Bytes>, g: Grammar, expected: Bytes, bound: nat)
    requires (forall l <- lines :: l != []) && PartitionOf(lines, g, expected, bound).Split?
    ensures var s := Scan(lines, g, bound);
            var groups := Pack(s.statements, Length(), bound);
            && Flatten(groups) == s.statements
            && WholeStatements(PartitionOf(lines, g, expected, bound).parts, groups, s.buffer, g, bound)
  {
    var s := Scan(lines, g, bound);
    var groups := Pack(s.statements, Length(), bound);
    ScanCutsSource(lines, g, bound);
    PackGroups(s.statements, Length(), bound);
    GroupsWithin(groups, s.statements, bound);
    RoomForRest(Join(groups), s.buffer, bound);
  }

  lemma GroupsWithin(groups: seq<seq<Bytes>>, statements: seq<Bytes>, bound: nat)
    requires Grouping(groups, statements, Length(), bound) && forall b <- statements :: |b| <= bound
    ensures (forall group <- groups :: |Flatten(group)| <= bound) && forall p <- Join(groups) :: |p| <= bound
  {
    forall i | 0 <= i < |groups|
      ensures |Flatten(groups[i])| <= bound
    {
      GroupWithin(groups, statements, i, bound);
    }
  }

  lemma GroupWithin(groups: seq<seq<Bytes>>, statements: seq<Bytes>, i: nat, bound: nat)
    requires Grouping(groups, statements, Length(), bound) && i < |groups| && forall b <- statements :: |b| <= bound
    ensures |Flatten(groups[i])| <= bound
  {
    var group := groups[i];
    assert group in groups;
    SizeIsLength(group);
    if |group| == 1 {
      MembersOf(groups, i, 0);
      FlattenOneMore([], group[0]);
      assert group == [] + [group[0]];
    }
  }

  lemma {:induction false} MembersOf<T>(groups: seq<seq<T>>, i: nat, j: nat)
    requires i < |groups| && j < |groups[i]|
    ensures groups[i][j] in Flatten(groups)
  {
    if i < |groups| - 1 {
      MembersOf(groups[..|groups| - 1], i, j);
    }
  }

  /** No way to cut the statements, in order and within the bound, gives fewer files. */
  lemma PartsOptimal(lines: seq<Bytes>, g: Grammar, expected: Bytes, bound: nat, other: seq<seq<Bytes>>)
    requires (forall l <- lines :: l != []) && PartitionOf(lines, g, expected, bound).Split?
    requires var s := Scan(lines, g, bound); s.statements != [] && Grouping(other, s.statements, Length(), bound)
    ensures |PartitionOf(lines, g, expected, bound).parts| <= |other|
  {
    PartsAreWholeStatements(lines, g, expected, bound);
    PackGroups(Scan(lines, g, bound).statements, Length(), bound);
    PackOptimal(Scan(lines, g, bound).statements, other, Length(), bound);
  }

  /** The bound is not kept by every source: a statement that fills a part, then one blank line. */
  lemma TrailingBlankLineExceedsBound(statement: Bytes, newline: Bytes, g: Grammar, bound: nat)
    requires 1024 <= bound <= 100 * 1024 * 1024 && |statement| == bound && |newline| == 1
    requires g.complete(statement) && !g.transaction(statement) && !g.complete(newline) && g.blank(newline)
    ensures PartitionOf([statement, newline], g, statement + newline, bound) == Split([statement + newline], 1)
    ensures |statement + newline| == bound + 1
  {
    var lines := [statement, newline];
    assert lines[..|lines| - 1] == [statement] && [statement][..0] == [];
    assert [] + statement == statement && [] + newline == newline;
    assert Scan([statement], g, bound) == Scanned([statement], []);
    assert Scan(lines, g, bound) == Line([statement], [] + newline, g, bound) == Scanned([statement], newline);
    assert Flatten([statement]) == statement;
    assert Flatten(lines) == Flatten(lines[..|lines| - 1]) + newline;
    assert Pack([statement], Length(), bound) == [[statement]];
    assert Join([[statement]]) == [statement];
    assert WithRest([statement], newline) == [statement + newline];
  }
}
