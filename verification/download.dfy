/** A checkpointed range download: what every crash leaves behind, and what a download that returns has on disk. */
module Download {
  import opened Binary
  import opened Wrappers

  datatype Error = BadArguments | Mismatch | Corrupt | Unreachable | BadResponse | Truncated | Oversized | Incomplete
  datatype Result<+T> = Ok(value: T) | Err(error: Error)

  /** A compressed part: what it holds, and the time stamp its container carries. */
  datatype Archive = Archive(sql: Bytes, stamp: int)

  /** Digests are injective, so a digest stands for the bytes it was taken of. */
  datatype Record = Record(file: nat, start: nat, bytes: nat, sha256: Archive, sqlSha256: Bytes)
  datatype Phase = Downloading | Downloaded
  datatype Manifest = Manifest(snapshot: string, total: int, chunkSize: int, chunks: seq<Record>, phase: Phase)
  datatype Disk = Disk(manifest: Option<Manifest>, parts: map<nat, Archive>)

  datatype Request = Request(snapshot: string, total: int, chunkSize: int, rangeSize: int)
  datatype ContentRange = ContentRange(first: nat, last: nat, total: int)
  datatype Response = Response(status: int, range: Option<ContentRange>, body: Bytes)

  /** What the server does with the request for the bytes from the first to the last named. */
  type Server = (nat, nat) -> Option<Response>

  const READ: nat := 1024 * 1024

  // ---- one range, one chunk, one run ----

  function Least(a: int, b: int): int {
    if a <= b then a else b
  }

  function Accept(answer: Option<Response>, first: nat, last: nat, total: int): Result<Bytes>
    requires first <= last
  {
    match answer
    case None => Err(Unreachable)
    case Some(r) =>
      if r.status != 206 || r.range != Some(ContentRange(first, last, total)) then Err(BadResponse)
      else if |r.body| < last - first + 1 then Err(Truncated)
      else if |r.body| > last - first + 1 then Err(Oversized)
      else Ok(r.body)
  }

  function Fetch(serve: Server, a: nat, end: nat, req: Request): Result<Bytes>
    requires req.rangeSize > 0
    decreases end - a
  {
    if a >= end then Ok([])
    else
      var b := Least(end, a + req.rangeSize) - 1;
      match Accept(serve(a, b), a, b, req.total)
      case Err(e) => Err(e)
      case Ok(block) => After(block, Fetch(serve, a + req.rangeSize, end, req))
  }

  function After(sofar: Bytes, rest: Result<Bytes>): Result<Bytes> {
    match rest
    case Err(e) => Err(e)
    case Ok(bytes) => Ok(sofar + bytes)
  }

  /** The states of the disk after each of a run's writes, and its answer. */
  datatype Trail = Trail(states: seq<Disk>, answer: Result<Manifest>)

  function Prepend(states: seq<Disk>, t: Trail): Trail {
    Trail(states + t.states, t.answer)
  }

  /** The manifest once a chunk is in place. */
  function Recorded(m: Manifest, i: nat, start: nat, end: nat, archive: Archive): Manifest
    requires start <= end
  {
    m.(chunks := m.chunks + [Record(i, start, end - start, archive, archive.sql)])
  }

  predicate Usable(req: Request) {
    req.snapshot != "" && req.total > 0 && req.chunkSize > 0 && req.rangeSize > 0
  }

  /** What a run is given. */
  datatype Job = Job(req: Request, serve: Server, stamp: nat -> int)

  /** Where the chunk loop stands. */
  datatype Loop = Loop(m: Manifest, parts: map<nat, Archive>, i: nat, start: nat, completed: int)

  /** One pass of the chunk loop: the writes it makes and how it goes on. */
  datatype Pass = Pass(states: seq<Disk>, next: Result<Loop>)

  function End(l: Loop, req: Request): nat
    requires req.chunkSize > 0 && l.start < req.total
  {
    Least(req.total, l.start + req.chunkSize)
  }

  /** A recorded chunk is read back and compared. */
  function Reuse(l: Loop, req: Request): Result<Loop>
    requires l.i < |l.m.chunks| && req.chunkSize > 0
  {
    var record := l.m.chunks[l.i];
    if record.file != l.i || l.i !in l.parts || l.parts[l.i] != record.sha256 then Err(Corrupt)
    else Ok(Loop(l.m, l.parts, l.i + 1, l.start + req.chunkSize, l.completed + record.bytes))
  }

  /** A fetched chunk is put in place first and recorded second. */
  function Fill(l: Loop, archive: Archive, req: Request): Pass
    requires req.chunkSize > 0 && l.start < req.total
  {
    var end := End(l, req);
    var parts := l.parts[l.i := archive];
    var m := Recorded(l.m, l.i, l.start, end, archive);
    Pass([Disk(Some(l.m), parts), Disk(Some(m), parts)],
         Ok(Loop(m, parts, l.i + 1, l.start + req.chunkSize, l.completed + end - l.start)))
  }

  function Step(l: Loop, job: Job): (p: Pass)
    requires Usable(job.req) && l.start < job.req.total
    ensures p.next.Ok? ==> p.next.value.start == l.start + job.req.chunkSize
  {
    if l.i < |l.m.chunks| then Pass([], Reuse(l, job.req))
    else
      match Fetch(job.serve, l.start, End(l, job.req), job.req)
      case Err(e) => Pass([], Err(e))
      case Ok(sql) => Fill(l, Archive(sql, job.stamp(l.i)), job.req)
  }

  function Finish(l: Loop, req: Request): Trail {
    var done := l.m.(phase := Downloaded);
    if l.completed != req.total then Trail([], Err(Incomplete)) else Trail([Disk(Some(done), l.parts)], Ok(done))
  }

  function Continue(l: Loop, job: Job): Trail
    requires Usable(job.req)
    decreases job.req.total - l.start
  {
    if l.start >= job.req.total then Finish(l, job.req)
    else
      var p := Step(l, job);
      match p.next
      case Err(e) => Trail(p.states, Err(e))
      case Ok(next) => Prepend(p.states, Continue(next, job))
  }

  function Begun(d: Disk, req: Request): Manifest {
    match d.manifest
    case Some(m) => m
    case None => Manifest(req.snapshot, req.total, req.chunkSize, [], Downloading)
  }

  predicate SameJob(m: Manifest, req: Request) {
    m.snapshot == req.snapshot && m.total == req.total && m.chunkSize == req.chunkSize
  }

  function FirstPass(m: Manifest, parts: map<nat, Archive>): Loop {
    Loop(m, parts, 0, 0, 0)
  }

  function Run(d: Disk, job: Job): Trail {
    var m := Begun(d, job.req);
    if !Usable(job.req) then Trail([], Err(BadArguments))
    else if !SameJob(m, job.req) then Trail([], Err(Mismatch))
    else Prepend([Disk(Some(m), d.parts)], Continue(FirstPass(m, d.parts), job))
  }

  // ---- the program ----

  /** A read of a response: some of what is left, and nothing only at the end. */
  method Read(body: Bytes, at: nat, limit: nat) returns (block: Bytes)
    requires at <= |body| && limit > 0
    ensures |block| <= limit && at + |block| <= |body| && block == body[at..at + |block|]
    ensures block == [] <==> at == |body|
  {
    if at == |body| {
      return [];
    }
    var n: nat :| 1 <= n <= limit && at + n <= |body|;
    return body[at..at + n];
  }

  method FetchRange(serve: Server, a: nat, b: nat, total: int) returns (result: Result<Bytes>)
    requires a <= b
    ensures result == Accept(serve(a, b), a, b, total)
  {
    var answer := serve(a, b);
    if answer.None? {
      return Err(Unreachable);
    }
    var r := answer.value;
    if r.status != 206 || r.range != Some(ContentRange(a, b, total)) {
      return Err(BadResponse);
    }
    var written: Bytes, remaining := [], b - a + 1;
    while remaining > 0
      invariant 0 <= remaining == b - a + 1 - |written| && |written| <= |r.body| && written == r.body[..|written|]
      decreases remaining
    {
      var block := Read(r.body, |written|, if remaining < READ then remaining else READ);
      if block == [] {
        return Err(Truncated);
      }
      assert written + block == r.body[..|written| + |block|];
      written := written + block;
      remaining := remaining - |block|;
    }
    assert |written| == b - a + 1;
    var more := Read(r.body, |written|, 1);
    if more != [] {
      return Err(Oversized);
    }
    assert written == r.body;
    return Ok(written);
  }

  lemma AfterNothing(rest: Result<Bytes>)
    ensures After([], rest) == rest
  {
    match rest {
      case Err(_) =>
      case Ok(bytes) => assert [] + bytes == bytes;
    }
  }

  lemma AfterMore(sofar: Bytes, block: Bytes, rest: Result<Bytes>)
    ensures After(sofar, After(block, rest)) == After(sofar + block, rest)
  {
    match rest {
      case Err(_) =>
      case Ok(bytes) => assert sofar + (block + bytes) == (sofar + block) + bytes;
    }
  }

  method FetchChunk(serve: Server, start: nat, end: nat, req: Request) returns (result: Result<Bytes>)
    requires req.rangeSize > 0
    ensures result == Fetch(serve, start, end, req)
  {
    var sql: Bytes, a: nat := [], start;
    AfterNothing(Fetch(serve, start, end, req));
    while a < end
      invariant Fetch(serve, start, end, req) == After(sql, Fetch(serve, a, end, req))
      decreases end - a
    {
      var b := Least(end, a + req.rangeSize) - 1;
      var block := FetchRange(serve, a, b, req.total);
      if block.Err? {
        return Err(block.error);
      }
      AfterMore(sql, block.value, Fetch(serve, a + req.rangeSize, end, req));
      sql := sql + block.value;
      a := a + req.rangeSize;
    }
    assert sql + [] == sql;
    return Ok(sql);
  }

  class Output {
    var manifest: Option<Manifest>
    var parts: map<nat, Archive>
    ghost var trail: seq<Disk>

    constructor ()
      ensures Now() == Disk(None, map[]) && trail == []
    {
      manifest, parts, trail := None, map[], [];
    }

    function Now(): Disk
      reads this
    {
      Disk(manifest, parts)
    }

    method Save(m: Manifest)
      modifies this
      ensures Now() == Disk(Some(m), old(parts)) && trail == old(trail) + [Now()]
    {
      manifest := Some(m);
      trail := trail + [Now()];
    }

    method Place(i: nat, archive: Archive)
      modifies this
      ensures Now() == Disk(old(manifest), old(parts)[i := archive]) && trail == old(trail) + [Now()]
    {
      parts := parts[i := archive];
      trail := trail + [Now()];
    }

    /** Fetch a chunk, put it in place, and only then record it. */
    method FillChunk(l: Loop, job: Job) returns (next: Result<Loop>)
      requires Now() == Disk(Some(l.m), l.parts) && Usable(job.req) && l.start < job.req.total && l.i >= |l.m.chunks|
      modifies this
      ensures trail == old(trail) + Step(l, job).states && Now() == Latest(old(Now()), Step(l, job).states)
      ensures next == Step(l, job).next
      ensures next.Ok? ==> Now() == Disk(Some(next.value.m), next.value.parts)
    {
      var end := Least(job.req.total, l.start + job.req.chunkSize);
      var sql := FetchChunk(job.serve, l.start, end, job.req);
      if sql.Err? {
        return Err(sql.error);
      }
      var archive := Archive(sql.value, job.stamp(l.i));
      Place(l.i, archive);
      var state := Recorded(l.m, l.i, l.start, end, archive);
      Save(state);
      return Ok(Loop(state, parts, l.i + 1, l.start + job.req.chunkSize, l.completed + end - l.start));
    }

    method Download(job: Job) returns (answer: Result<Manifest>)
      modifies this
      ensures trail == old(trail) + Run(old(Now()), job).states
      ensures answer == Run(old(Now()), job).answer
      ensures Now() == Latest(old(Now()), Run(old(Now()), job).states)
    {
      var req := job.req;
      if !Usable(req) {
        return Err(BadArguments);
      }
      var state := Begun(Now(), req);
      if !SameJob(state, req) {
        return Err(Mismatch);
      }
      Save(state);
      answer := Chunks(state, job);
    }

    /** A recorded chunk must still be in place. */
    method Check(l: Loop, req: Request) returns (next: Result<Loop>)
      requires Now() == Disk(Some(l.m), l.parts) && req.chunkSize > 0 && l.i < |l.m.chunks|
      ensures next == Reuse(l, req)
    {
      var record := l.m.chunks[l.i];
      if record.file != l.i || l.i !in parts || parts[l.i] != record.sha256 {
        return Err(Corrupt);
      }
      return Ok(Loop(l.m, l.parts, l.i + 1, l.start + req.chunkSize, l.completed + record.bytes));
    }

    /** One pass of the chunk loop. */
    method OneChunk(l: Loop, job: Job) returns (next: Result<Loop>)
      requires Now() == Disk(Some(l.m), l.parts) && Usable(job.req) && l.start < job.req.total
      modifies this
      ensures trail == old(trail) + Step(l, job).states && Now() == Latest(old(Now()), Step(l, job).states)
      ensures next == Step(l, job).next
      ensures next.Ok? ==> Now() == Disk(Some(next.value.m), next.value.parts)
    {
      if l.i < |l.m.chunks| {
        next := Check(l, job.req);
      } else {
        next := FillChunk(l, job);
      }
    }

    method Chunks(m: Manifest, job: Job) returns (answer: Result<Manifest>)
      requires Usable(job.req) && manifest == Some(m)
      modifies this
      ensures trail == old(trail) + Continue(FirstPass(m, old(parts)), job).states
      ensures answer == Continue(FirstPass(m, old(parts)), job).answer
      ensures Now() == Latest(old(Now()), Continue(FirstPass(m, old(parts)), job).states)
    {
      var l := FirstPass(m, parts);
      ghost var run := Continue(l, job);
      ghost var written: seq<Disk> := [];
      PrependNothing(run);
      while l.start < job.req.total
        invariant Now() == Disk(Some(l.m), l.parts) && Traced(old(trail), old(Now()), written, trail, Now())
        invariant run == Prepend(written, Continue(l, job))
        decreases job.req.total - l.start
      {
        var next := OneChunk(l, job);
        if next.Err? {
          Stopped(written, l, job);
          return Err(next.error);
        }
        OnePass(written, l, job);
        TracedMore(old(trail), old(Now()), written, Step(l, job).states);
        written := written + Step(l, job).states;
        l := next.value;
      }
      TracedMore(old(trail), old(Now()), written, Finish(l, job.req).states);
      Ended(written, l, job);
      answer := Complete(l, job.req);
    }

    /** The whole length must be there. */
    method Complete(l: Loop, req: Request) returns (answer: Result<Manifest>)
      requires Now() == Disk(Some(l.m), l.parts)
      modifies this
      ensures trail == old(trail) + Finish(l, req).states && answer == Finish(l, req).answer
      ensures Now() == Latest(old(Now()), Finish(l, req).states)
    {
      if l.completed != req.total {
        return Err(Incomplete);
      }
      var state := l.m.(phase := Downloaded);
      Save(state);
      return Ok(state);
    }
  }

  lemma Ended(before: seq<Disk>, l: Loop, job: Job)
    requires Usable(job.req) && l.start >= job.req.total
    ensures Prepend(before, Continue(l, job)) == Prepend(before, Finish(l, job.req))
  {
  }

  /** These writes lead from one disk to another and are what the trail gained. */
  predicate Traced(before: seq<Disk>, start: Disk, written: seq<Disk>, trail: seq<Disk>, now: Disk) {
    trail == before + written && now == Latest(start, written)
  }

  lemma TracedMore(before: seq<Disk>, start: Disk, written: seq<Disk>, more: seq<Disk>)
    ensures Traced(before, start, written + more, before + written + more, Latest(Latest(start, written), more))
  {
    assert before + (written + more) == before + written + more;
  }

  function Latest(d: Disk, states: seq<Disk>): Disk {
    if states == [] then d else states[|states| - 1]
  }

  lemma Stopped(before: seq<Disk>, l: Loop, job: Job)
    requires Usable(job.req) && l.start < job.req.total && Step(l, job).next.Err?
    ensures Step(l, job).states == []
    ensures Prepend(before, Continue(l, job)) == Trail(before, Err(Step(l, job).next.error))
  {
    assert before + [] == before;
  }

  lemma OnePass(before: seq<Disk>, l: Loop, job: Job)
    requires Usable(job.req) && l.start < job.req.total && Step(l, job).next.Ok?
    ensures Prepend(before, Continue(l, job)) ==
            Prepend(before + Step(l, job).states, Continue(Step(l, job).next.value, job))
  {
    PrependMore(before, Step(l, job).states, Continue(Step(l, job).next.value, job));
  }

  lemma PrependNothing(t: Trail)
    ensures Prepend([], t) == t
  {
    assert [] + t.states == t.states;
  }

  lemma PrependMore(a: seq<Disk>, b: seq<Disk>, t: Trail)
    ensures Prepend(a, Prepend(b, t)) == Prepend(a + b, t)
  {
    assert a + (b + t.states) == (a + b) + t.states;
  }
}
