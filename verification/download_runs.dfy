/** Whole histories of downloads: crashes at any write, damage to part files in between, and a download that returns. */
module DownloadRuns {
  import opened Binary
  import opened Wrappers
  import opened Download

  // ---- ranges ----

  datatype Range = Range(first: nat, last: nat)

  /** The ranges a chunk is asked for in. */
  function Ranges(a: nat, end: nat, size: nat): seq<Range>
    requires size > 0
    decreases end - a
  {
    if a >= end then [] else [Range(a, Least(end, a + size) - 1)] + Ranges(a + size, end, size)
  }

  predicate Covered(rs: seq<Range>, k: nat) {
    exists r <- rs :: r.first <= k <= r.last
  }

  /** Neither gap nor overlap, no byte outside the chunk, and no range above the size. */
  lemma {:induction false} RangesTile(a: nat, end: nat, size: nat)
    requires size > 0
    ensures var rs := Ranges(a, end, size);
            && (forall r <- rs :: a <= r.first <= r.last < end && r.last - r.first < size)
            && (forall i, j :: 0 <= i < j < |rs| ==> rs[i].last < rs[j].first)
            && (forall k: nat :: Covered(rs, k) <==> a <= k < end)
    decreases end - a
  {
    if a < end {
      RangesTile(a + size, end, size);
      var first, rest := Range(a, Least(end, a + size) - 1), Ranges(a + size, end, size);
      forall k: nat
        ensures Covered([first] + rest, k) <==> a <= k < end
      {
        CoveredFirst(first, rest, k);
      }
    }
  }

  lemma CoveredFirst(first: Range, rest: seq<Range>, k: nat)
    ensures Covered([first] + rest, k) <==> first.first <= k <= first.last || Covered(rest, k)
  {
    var rs := [first] + rest;
    assert first in rs && forall r <- rest :: r in rs;
    assert forall r <- rs :: r == first || r in rest;
  }

  /** The answer is a partial response with exactly the bytes asked for. */
  predicate Served(serve: Server, r: Range, total: int) {
    && r.first <= r.last && serve(r.first, r.last).Some?
    && var a := serve(r.first, r.last).value;
       && a.status == 206 && |a.body| == r.last - r.first + 1
       && a.range.Some? && a.range.value.first == r.first && a.range.value.last == r.last
       && a.range.value.total == total
  }

  ghost predicate AllServed(serve: Server, ranges: seq<Range>, total: int) {
    forall r <- ranges :: Served(serve, r, total)
  }

  lemma AllServedSplit(serve: Server, a: seq<Range>, b: seq<Range>, total: int)
    ensures AllServed(serve, a + b, total) <==> AllServed(serve, a, total) && AllServed(serve, b, total)
  {
    assert forall r <- a :: r in a + b;
    assert forall r <- b :: r in a + b;
  }

  /** A chunk is fetched exactly when every one of its ranges is accepted, and then it has the chunk's length. */
  lemma {:induction false} FetchedExactlyWhen(serve: Server, a: nat, end: nat, req: Request)
    requires req.rangeSize > 0
    ensures Fetch(serve, a, end, req).Ok? <==> AllServed(serve, Ranges(a, end, req.rangeSize), req.total)
    ensures Fetch(serve, a, end, req).Ok? && a <= end ==> |Fetch(serve, a, end, req).value| == end - a
    decreases end - a
  {
    if a < end {
      FetchedExactlyWhen(serve, a + req.rangeSize, end, req);
      var first := Range(a, Least(end, a + req.rangeSize) - 1);
      AllServedSplit(serve, [first], Ranges(a + req.rangeSize, end, req.rangeSize), req.total);
      assert AllServed(serve, [first], req.total) <==> Served(serve, first, req.total) by {
        assert first in [first];
      }
    }
  }

  // ---- servers of one immutable source ----

  /** A partial response says which bytes of the source it carries; the body may break off or run on. */
  ghost predicate HonestAnswer(answer: Option<Response>, source: Bytes) {
    answer.Some? && answer.value.status == 206 && answer.value.range.Some? ==>
      var r := answer.value.range.value;
      && r.first <= r.last < |source| && r.total == |source|
      && forall k :: 0 <= k < |answer.value.body| && k <= r.last - r.first ==>
           answer.value.body[k] == source[r.first + k]
  }

  ghost predicate HonestServer(serve: Server, source: Bytes) {
    forall a: nat, b: nat :: HonestAnswer(serve(a, b), source)
  }

  lemma SliceJoin(source: Bytes, a: nat, b: nat, c: nat)
    requires a <= b <= c <= |source|
    ensures source[a..c] == source[a..b] + source[b..c] && (b == c ==> source[b..c] == [])
  {
  }

  lemma BlockIsSource(serve: Server, a: nat, b: nat, total: int, source: Bytes)
    requires HonestServer(serve, source) && a <= b && Accept(serve(a, b), a, b, total).Ok?
    ensures total == |source| && b < |source| && Accept(serve(a, b), a, b, total).value == source[a..b + 1]
  {
    assert HonestAnswer(serve(a, b), source);
  }

  lemma {:induction false} FetchIsSource(serve: Server, a: nat, end: nat, req: Request, source: Bytes)
    requires req.rangeSize > 0 && HonestServer(serve, source) && a < end && Fetch(serve, a, end, req).Ok?
    ensures req.total == |source| && end <= |source| && Fetch(serve, a, end, req).value == source[a..end]
    decreases end - a
  {
    var b := Least(end, a + req.rangeSize) - 1;
    BlockIsSource(serve, a, b, req.total, source);
    if a + req.rangeSize < end {
      FetchIsSource(serve, a + req.rangeSize, end, req, source);
      SliceJoin(source, a, b + 1, end);
    } else {
      SliceJoin(source, a, b + 1, b + 1);
    }
  }

  // ---- manifests ----

  function StartOf(m: Manifest, i: nat): nat
    requires i <= |m.chunks| && m.chunkSize > 0
  {
    if i == 0 then 0 else m.chunks[i - 1].start + m.chunkSize
  }

  /** Entries name the parts in order and tile the archive from its start; a finished download has all of them. */
  predicate Shaped(m: Manifest) {
    && m.total > 0 && m.chunkSize > 0
    && (forall i :: 0 <= i < |m.chunks| ==> ShapedAt(m, i))
    && (m.phase == Downloaded ==> StartOf(m, |m.chunks|) >= m.total)
  }

  predicate ShapedAt(m: Manifest, i: nat)
    requires i < |m.chunks| && m.chunkSize > 0
  {
    var c := m.chunks[i];
    c.file == i && c.start == StartOf(m, i) < m.total && c.bytes == Least(m.total, c.start + m.chunkSize) - c.start
  }

  /** Entries describe the source. */
  predicate Genuine(m: Manifest, source: Bytes) {
    && (m.chunks != [] ==> m.total == |source|)
    && forall c <- m.chunks ::
         c.start + c.bytes <= |source| && c.sha256.sql == c.sqlSha256 == source[c.start..c.start + c.bytes]
  }

  predicate PartIntact(m: Manifest, parts: map<nat, Archive>, i: nat)
    requires i < |m.chunks|
  {
    i in parts && parts[i] == m.chunks[i].sha256
  }

  predicate Intact(m: Manifest, parts: map<nat, Archive>) {
    forall i :: 0 <= i < |m.chunks| ==> PartIntact(m, parts, i)
  }

  /** The manifest can be trusted: it holds whatever happened to the part files. */
  predicate Trusted(d: Disk, source: Bytes) {
    d.manifest.Some? ==> Shaped(d.manifest.value) && Genuine(d.manifest.value, source)
  }

  /** Every entry names a complete, correct chunk that is in place. */
  predicate CrashSafe(d: Disk, source: Bytes) {
    Trusted(d, source) && (d.manifest.Some? ==> Intact(d.manifest.value, d.parts))
  }

  /** What the parts hold, put together. */
  function Assemble(parts: map<nat, Archive>, n: nat): Bytes {
    if n == 0 then [] else Assemble(parts, n - 1) + if n - 1 in parts then parts[n - 1].sql else []
  }

  lemma {:induction false} AssembleIgnoresLater(parts: map<nat, Archive>, n: nat, i: nat, archive: Archive)
    requires n <= i
    ensures Assemble(parts[i := archive], n) == Assemble(parts, n)
  {
    if n > 0 {
      AssembleIgnoresLater(parts, n - 1, i, archive);
    }
  }

  lemma RecordedShaped(m: Manifest, start: nat, archive: Archive)
    requires Shaped(m) && start == StartOf(m, |m.chunks|) < m.total
    ensures Shaped(Recorded(m, |m.chunks|, start, Least(m.total, start + m.chunkSize), archive))
  {
    var m' := Recorded(m, |m.chunks|, start, Least(m.total, start + m.chunkSize), archive);
    forall i | 0 <= i < |m'.chunks|
      ensures ShapedAt(m', i)
    {
      if i < |m.chunks| {
        assert ShapedAt(m, i);
      }
    }
  }

  lemma RecordedGenuine(m: Manifest, start: nat, end: nat, archive: Archive, source: Bytes)
    requires Genuine(m, source) && start <= end <= |source| == m.total && archive.sql == source[start..end]
    ensures Genuine(Recorded(m, |m.chunks|, start, end, archive), source)
  {
  }

  lemma PlacedIntact(m: Manifest, parts: map<nat, Archive>, archive: Archive)
    requires Intact(m, parts)
    ensures Intact(m, parts[|m.chunks| := archive])
  {
    assert forall i {:trigger PartIntact(m, parts[|m.chunks| := archive], i)} ::
        0 <= i < |m.chunks| ==> PartIntact(m, parts, i);
  }

  lemma RecordedIntact(m: Manifest, parts: map<nat, Archive>, start: nat, end: nat, archive: Archive)
    requires start <= end && Intact(m, parts)
    ensures Intact(Recorded(m, |m.chunks|, start, end, archive), parts[|m.chunks| := archive])
  {
    var m', parts' := Recorded(m, |m.chunks|, start, end, archive), parts[|m.chunks| := archive];
    forall i {:trigger PartIntact(m', parts', i)} | 0 <= i < |m'.chunks|
      ensures PartIntact(m', parts', i)
    {
      if i < |m.chunks| {
        assert PartIntact(m, parts, i);
      }
    }
  }

  // ---- one run ----

  /** The chunk loop has reached chunk `l.i` of a manifest that can be trusted. */
  predicate At(l: Loop, req: Request) {
    && Usable(req) && SameJob(l.m, req) && Shaped(l.m)
    && l.i <= |l.m.chunks| && l.start == StartOf(l.m, l.i) && l.completed == Least(l.start, req.total)
  }

  lemma ReuseAt(l: Loop, req: Request)
    requires At(l, req) && l.i < |l.m.chunks|
    ensures l.start < req.total
    ensures Reuse(l, req).Ok? <==> PartIntact(l.m, l.parts, l.i)
    ensures Reuse(l, req).Ok? ==> At(Reuse(l, req).value, req)
  {
    assert ShapedAt(l.m, l.i);
  }

  lemma FillAt(l: Loop, archive: Archive, req: Request)
    requires At(l, req) && l.i == |l.m.chunks| && l.start < req.total
    ensures At(Fill(l, archive, req).next.value, req)
  {
    RecordedShaped(l.m, l.start, archive);
  }

  predicate Sure(l: Loop, req: Request, source: Bytes) {
    At(l, req) && Genuine(l.m, source)
  }

  lemma FillSafe(l: Loop, archive: Archive, req: Request, source: Bytes)
    requires Sure(l, req, source) && l.i == |l.m.chunks| && l.start < req.total == |source|
    requires archive.sql == source[l.start..End(l, req)]
    ensures var p := Fill(l, archive, req);
            && Sure(p.next.value, req, source)
            && (forall d: Disk <- p.states :: Trusted(d, source))
            && (Intact(l.m, l.parts) ==>
                  Intact(p.next.value.m, p.next.value.parts) && forall d: Disk <- p.states :: CrashSafe(d, source))
  {
    FillAt(l, archive, req);
    RecordedGenuine(l.m, l.start, End(l, req), archive, source);
    if Intact(l.m, l.parts) {
      PlacedIntact(l.m, l.parts, archive);
      RecordedIntact(l.m, l.parts, l.start, End(l, req), archive);
    }
  }

  /** One pass of the chunk loop. */
  lemma StepSafe(l: Loop, job: Job, source: Bytes)
    requires Sure(l, job.req, source) && l.start < job.req.total && HonestServer(job.serve, source)
    ensures var p := Step(l, job);
            && (p.next.Ok? ==> Sure(p.next.value, job.req, source))
            && (forall d: Disk <- p.states :: Trusted(d, source))
            && (Intact(l.m, l.parts) ==>
                  && (p.next.Ok? ==> Intact(p.next.value.m, p.next.value.parts))
                  && forall d: Disk <- p.states :: CrashSafe(d, source))
  {
    if l.i < |l.m.chunks| {
      ReuseAt(l, job.req);
    } else {
      var sql := Fetch(job.serve, l.start, End(l, job.req), job.req);
      if sql.Ok? {
        FetchIsSource(job.serve, l.start, End(l, job.req), job.req, source);
        FillSafe(l, Archive(sql.value, job.stamp(l.i)), job.req, source);
      }
    }
  }

  lemma FinishSafe(l: Loop, req: Request, source: Bytes)
    requires Sure(l, req, source) && l.start >= req.total
    ensures forall d: Disk <- Finish(l, req).states :: Trusted(d, source)
    ensures Intact(l.m, l.parts) ==> forall d: Disk <- Finish(l, req).states :: CrashSafe(d, source)
  {
    var m' := l.m.(phase := Downloaded);
    assert l.i == |l.m.chunks| by {
      if l.i < |l.m.chunks| {
        ReuseAt(l, req);
      }
    }
    assert forall i {:trigger ShapedAt(m', i)} :: 0 <= i < |m'.chunks| ==> ShapedAt(l.m, i);
    if Intact(l.m, l.parts) {
      assert forall i {:trigger PartIntact(m', l.parts, i)} :: 0 <= i < |m'.chunks| ==> PartIntact(l.m, l.parts, i);
    }
  }

  /** Every write keeps the manifest trustworthy, and keeps every entry's part in place. */
  lemma {:induction false} ContinueSafe(l: Loop, job: Job, source: Bytes)
    requires Sure(l, job.req, source) && HonestServer(job.serve, source)
    ensures forall d: Disk <- Continue(l, job).states :: Trusted(d, source)
    ensures Intact(l.m, l.parts) ==> forall d: Disk <- Continue(l, job).states :: CrashSafe(d, source)
    decreases job.req.total - l.start
  {
    if l.start >= job.req.total {
      FinishSafe(l, job.req, source);
    } else {
      StepSafe(l, job, source);
      if Step(l, job).next.Ok? {
        ContinueSafe(Step(l, job).next.value, job, source);
      }
    }
  }

  lemma BegunSure(d: Disk, req: Request, source: Bytes)
    requires Trusted(d, source) && Usable(req) && SameJob(Begun(d, req), req)
    ensures Sure(FirstPass(Begun(d, req), d.parts), req, source)
    ensures CrashSafe(d, source) ==> Intact(Begun(d, req), d.parts)
    ensures Trusted(Disk(Some(Begun(d, req)), d.parts), source)
  {
  }

  lemma RunSafe(d: Disk, job: Job, source: Bytes)
    requires Trusted(d, source) && HonestServer(job.serve, source)
    ensures forall d': Disk <- Run(d, job).states :: Trusted(d', source)
    ensures CrashSafe(d, source) ==> forall d': Disk <- Run(d, job).states :: CrashSafe(d', source)
  {
    if Usable(job.req) && SameJob(Begun(d, job.req), job.req) {
      BegunSure(d, job.req, source);
      ContinueSafe(FirstPass(Begun(d, job.req), d.parts), job, source);
    }
  }

  function Prefix(source: Bytes, n: int): Bytes {
    if n <= 0 then [] else if n <= |source| then source[..n] else source
  }

  /** The parts so far hold the source so far. */
  predicate Gathered(l: Loop, req: Request, source: Bytes) {
    && Sure(l, req, source) && (l.i > 0 ==> req.total == |source|)
    && Assemble(l.parts, l.i) == Prefix(source, l.completed)
  }

  lemma PrefixGrows(source: Bytes, a: nat, b: nat)
    requires a <= b <= |source|
    ensures Prefix(source, b) == Prefix(source, a) + source[a..b]
  {
  }

  lemma ReuseGathers(l: Loop, req: Request, source: Bytes)
    requires Gathered(l, req, source) && l.i < |l.m.chunks| && Reuse(l, req).Ok?
    ensures Gathered(Reuse(l, req).value, req, source)
  {
    ReuseAt(l, req);
    assert ShapedAt(l.m, l.i) && l.m.chunks[l.i] in l.m.chunks;
    PrefixGrows(source, l.start, l.start + l.m.chunks[l.i].bytes);
  }

  lemma FillGathers(l: Loop, archive: Archive, req: Request, source: Bytes)
    requires Gathered(l, req, source) && l.i == |l.m.chunks| && l.start < req.total == |source|
    requires archive.sql == source[l.start..End(l, req)]
    ensures Gathered(Fill(l, archive, req).next.value, req, source)
  {
    FillSafe(l, archive, req, source);
    AssembleIgnoresLater(l.parts, l.i, l.i, archive);
    PrefixGrows(source, l.start, End(l, req));
  }

  lemma StepGathers(l: Loop, job: Job, source: Bytes)
    requires Gathered(l, job.req, source) && l.start < job.req.total && HonestServer(job.serve, source)
    requires Step(l, job).next.Ok?
    ensures Gathered(Step(l, job).next.value, job.req, source)
  {
    if l.i < |l.m.chunks| {
      ReuseGathers(l, job.req, source);
    } else {
      var sql := Fetch(job.serve, l.start, End(l, job.req), job.req);
      FetchIsSource(job.serve, l.start, End(l, job.req), job.req, source);
      FillGathers(l, Archive(sql.value, job.stamp(l.i)), job.req, source);
    }
  }

  predicate Finished(d: Disk, m: Manifest, source: Bytes) {
    d.manifest == Some(m) && m.phase == Downloaded && Assemble(d.parts, |m.chunks|) == source
  }

  predicate EndsFinished(t: Trail, source: Bytes) {
    t.answer.Ok? ==> t.states != [] && Finished(t.states[|t.states| - 1], t.answer.value, source)
  }

  lemma FinishGathered(l: Loop, req: Request, source: Bytes)
    requires Gathered(l, req, source) && l.start >= req.total
    ensures EndsFinished(Finish(l, req), source)
  {
    if l.i < |l.m.chunks| {
      ReuseAt(l, req);
      assert false;
    }
  }

  /** When the run answers, the parts it leaves hold the source, whatever they held before. */
  lemma {:induction false} ContinueFinishes(l: Loop, job: Job, source: Bytes)
    requires Gathered(l, job.req, source) && HonestServer(job.serve, source)
    ensures EndsFinished(Continue(l, job), source)
    decreases job.req.total - l.start
  {
    if l.start >= job.req.total {
      FinishGathered(l, job.req, source);
    } else if Step(l, job).next.Ok? {
      StepGathers(l, job, source);
      ContinueFinishes(Step(l, job).next.value, job, source);
    }
  }

  // ---- histories ----

  /** An attempt that stops after some of its writes, or all of them; or harm to the part files. */
  datatype Event = Attempt(job: Job, writes: nat) | Damage(parts: map<nat, Archive>)

  function Next(d: Disk, e: Event): Disk {
    match e
    case Attempt(job, writes) =>
      var states := Run(d, job).states;
      Latest(d, if writes <= |states| then states[..writes] else states)
    case Damage(parts) => d.(parts := parts)
  }

  function Left(d: Disk, events: seq<Event>): Disk {
    if events == [] then d else Next(Left(d, events[..|events| - 1]), events[|events| - 1])
  }

  ghost predicate Honest(events: seq<Event>, source: Bytes) {
    forall e <- events :: e.Attempt? ==> HonestServer(e.job.serve, source)
  }

  const EMPTY := Disk(None, map[])

  lemma NextSafe(d: Disk, e: Event, source: Bytes)
    requires Trusted(d, source) && (e.Attempt? ==> HonestServer(e.job.serve, source))
    ensures Trusted(Next(d, e), source)
    ensures CrashSafe(d, source) && e.Attempt? ==> CrashSafe(Next(d, e), source)
  {
    if e.Attempt? {
      RunSafe(d, e.job, source);
    }
  }

  lemma {:induction false} HistoryTrusted(events: seq<Event>, source: Bytes)
    requires Honest(events, source)
    ensures Trusted(Left(EMPTY, events), source)
  {
    if events != [] {
      assert forall e <- events[..|events| - 1] :: e in events;
      HistoryTrusted(events[..|events| - 1], source);
      NextSafe(Left(EMPTY, events[..|events| - 1]), events[|events| - 1], source);
    }
  }

  /** At every crash point of every history without damage, each manifest entry names a complete correct chunk. */
  lemma {:induction false} EveryCrashIsSafe(events: seq<Event>, source: Bytes)
    requires Honest(events, source) && forall e <- events :: e.Attempt?
    ensures CrashSafe(Left(EMPTY, events), source)
  {
    if events != [] {
      assert forall e <- events[..|events| - 1] :: e in events;
      EveryCrashIsSafe(events[..|events| - 1], source);
      NextSafe(Left(EMPTY, events[..|events| - 1]), events[|events| - 1], source);
    }
  }

  /** Resume equivalence: after any history of crashed attempts and damaged parts, a download that returns leaves
      parts whose concatenation is the source. */
  lemma ResumeGivesSource(events: seq<Event>, job: Job, source: Bytes)
    requires Honest(events, source) && HonestServer(job.serve, source)
    ensures EndsFinished(Run(Left(EMPTY, events), job), source)
  {
    var d := Left(EMPTY, events);
    HistoryTrusted(events, source);
    if Usable(job.req) && SameJob(Begun(d, job.req), job.req) {
      BegunSure(d, job.req, source);
      ContinueFinishes(FirstPass(Begun(d, job.req), d.parts), job, source);
    }
  }

  // ---- when a download returns ----

  /** The ranges still to ask for, from a byte on. */
  function Pending(start: nat, req: Request): seq<Range>
    requires Usable(req)
    decreases req.total - start
  {
    if start >= req.total then []
    else Ranges(start, Least(req.total, start + req.chunkSize), req.rangeSize) + Pending(start + req.chunkSize, req)
  }

  ghost predicate IntactFrom(m: Manifest, parts: map<nat, Archive>, from: nat) {
    forall i :: from <= i < |m.chunks| ==> PartIntact(m, parts, i)
  }

  lemma FilledWhen(l: Loop, job: Job)
    requires At(l, job.req) && l.i == |l.m.chunks| && l.start < job.req.total
    ensures Step(l, job).next.Ok? <==>
            AllServed(job.serve, Ranges(l.start, End(l, job.req), job.req.rangeSize), job.req.total)
    ensures Step(l, job).next.Ok? ==>
            var l' := Step(l, job).next.value; At(l', job.req) && l'.i == |l'.m.chunks|
  {
    FetchedExactlyWhen(job.serve, l.start, End(l, job.req), job.req);
    var sql := Fetch(job.serve, l.start, End(l, job.req), job.req);
    if sql.Ok? {
      FillAt(l, Archive(sql.value, job.stamp(l.i)), job.req);
    }
  }

  lemma PendingSplit(serve: Server, start: nat, req: Request)
    requires Usable(req) && start < req.total
    ensures AllServed(serve, Pending(start, req), req.total) <==>
            && AllServed(serve, Ranges(start, Least(req.total, start + req.chunkSize), req.rangeSize), req.total)
            && AllServed(serve, Pending(start + req.chunkSize, req), req.total)
  {
    AllServedSplit(serve, Ranges(start, Least(req.total, start + req.chunkSize), req.rangeSize),
                   Pending(start + req.chunkSize, req), req.total);
  }

  lemma AnswerStep(l: Loop, job: Job)
    requires Usable(job.req) && l.start < job.req.total
    ensures Continue(l, job).answer.Ok? <==>
            Step(l, job).next.Ok? && Continue(Step(l, job).next.value, job).answer.Ok?
  {
  }

  lemma {:induction false} NewChunksWhen(l: Loop, job: Job)
    requires At(l, job.req) && l.i == |l.m.chunks|
    ensures Continue(l, job).answer.Ok? <==> AllServed(job.serve, Pending(l.start, job.req), job.req.total)
    decreases job.req.total - l.start
  {
    if l.start < job.req.total {
      FilledWhen(l, job);
      AnswerStep(l, job);
      PendingSplit(job.serve, l.start, job.req);
      var p := Step(l, job);
      if p.next.Ok? {
        NewChunksWhen(p.next.value, job);
      }
    }
  }

  lemma {:induction false} ContinueAnswersWhen(l: Loop, job: Job)
    requires At(l, job.req)
    ensures Continue(l, job).answer.Ok? <==>
            && IntactFrom(l.m, l.parts, l.i)
            && AllServed(job.serve, Pending(StartOf(l.m, |l.m.chunks|), job.req), job.req.total)
    decreases job.req.total - l.start
  {
    if l.i == |l.m.chunks| {
      NewChunksWhen(l, job);
    } else {
      ReuseAt(l, job.req);
      assert IntactFrom(l.m, l.parts, l.i) <==> PartIntact(l.m, l.parts, l.i) && IntactFrom(l.m, l.parts, l.i + 1);
      if Reuse(l, job.req).Ok? {
        ContinueAnswersWhen(Reuse(l, job.req).value, job);
      }
    }
  }

  /** A download returns exactly when its arguments are usable and name the job under way, every recorded part is in
      place and every range after the recorded chunks is accepted; the recorded chunks are not asked for again. */
  lemma ReturnsExactlyWhen(events: seq<Event>, job: Job, source: Bytes)
    requires Honest(events, source)
    ensures var d := Left(EMPTY, events); var m := Begun(d, job.req);
            Run(d, job).answer.Ok? <==>
              && Usable(job.req) && SameJob(m, job.req) && Intact(m, d.parts)
              && AllServed(job.serve, Pending(StartOf(m, |m.chunks|), job.req), job.req.total)
  {
    var d := Left(EMPTY, events);
    HistoryTrusted(events, source);
    if Usable(job.req) && SameJob(Begun(d, job.req), job.req) {
      BegunSure(d, job.req, source);
      ContinueAnswersWhen(FirstPass(Begun(d, job.req), d.parts), job);
    }
  }

  // ---- progress ----

  /** The same job, with all the chunks recorded so far. */
  predicate Extends(m: Manifest, m': Manifest) {
    m'.snapshot == m.snapshot && m'.total == m.total && m'.chunkSize == m.chunkSize && m.chunks <= m'.chunks
  }

  predicate DiskExtends(m: Manifest, d: Disk) {
    d.manifest.Some? && Extends(m, d.manifest.value)
  }

  lemma StepExtends(l: Loop, job: Job)
    requires Usable(job.req) && l.start < job.req.total
    ensures Step(l, job).next.Ok? ==> Extends(l.m, Step(l, job).next.value.m)
    ensures forall d: Disk <- Step(l, job).states :: DiskExtends(l.m, d)
  {
  }

  lemma {:induction false} ContinueExtends(l: Loop, job: Job)
    requires Usable(job.req)
    ensures forall d: Disk <- Continue(l, job).states :: DiskExtends(l.m, d)
    decreases job.req.total - l.start
  {
    if l.start < job.req.total {
      StepExtends(l, job);
      if Step(l, job).next.Ok? {
        var l' := Step(l, job).next.value;
        ContinueExtends(l', job);
        assert forall d: Disk :: DiskExtends(l'.m, d) ==> DiskExtends(l.m, d);
      }
    }
  }

  /** Once a job is on disk, no attempt and no crash replaces it or drops a recorded chunk. */
  lemma ProgressKept(d: Disk, e: Event)
    requires d.manifest.Some?
    ensures DiskExtends(d.manifest.value, Next(d, e))
  {
    if e.Attempt? && Usable(e.job.req) && SameJob(d.manifest.value, e.job.req) {
      ContinueExtends(FirstPass(d.manifest.value, d.parts), e.job);
    }
  }

  // ---- what is refused, and what cannot fail ----

  /** Arguments are refused, and a job other than the one on disk, before anything is written. */
  lemma RefusedByFields(d: Disk, job: Job)
    ensures var r := job.req; var t := Run(d, job);
            var usable := r.snapshot != "" && r.total > 0 && r.chunkSize > 0 && r.rangeSize > 0;
            var other := d.manifest.Some? && (|| d.manifest.value.snapshot != r.snapshot
                                              || d.manifest.value.total != r.total
                                              || d.manifest.value.chunkSize != r.chunkSize);
            && (!usable ==> t.answer == Err(BadArguments) && t.states == [])
            && (usable && other ==> t.answer == Err(Mismatch) && t.states == [])
            && (usable && !other ==>
                  && t.answer != Err(BadArguments) && t.states != [] && t.states[0].parts == d.parts
                  && t.states[0].manifest ==
                     if d.manifest.Some? then d.manifest
                     else Some(Manifest(r.snapshot, r.total, r.chunkSize, [], Downloading)))
  {
    if Usable(job.req) {
      NeverBadArguments(FirstPass(Begun(d, job.req), d.parts), job);
    }
  }

  lemma {:induction false} FetchNeverBadArguments(serve: Server, a: nat, end: nat, req: Request)
    requires req.rangeSize > 0
    ensures Fetch(serve, a, end, req) != Err(BadArguments)
    decreases end - a
  {
    if a < end {
      FetchNeverBadArguments(serve, a + req.rangeSize, end, req);
    }
  }

  lemma {:induction false} NeverBadArguments(l: Loop, job: Job)
    requires Usable(job.req)
    ensures Continue(l, job).answer != Err(BadArguments)
    decreases job.req.total - l.start
  {
    if l.start < job.req.total {
      if l.i >= |l.m.chunks| {
        FetchNeverBadArguments(job.serve, l.start, End(l, job.req), job.req);
      }
      if Step(l, job).next.Ok? {
        NeverBadArguments(Step(l, job).next.value, job);
      }
    }
  }

  /** The server that answers every range of the source in full. */
  function Perfect(source: Bytes): Server {
    (a: nat, b: nat) =>
      if a <= b < |source| then Some(Response(206, Some(ContentRange(a, b, |source|)), source[a..b + 1])) else None
  }

  lemma {:induction false} PerfectServes(source: Bytes, start: nat, req: Request)
    requires Usable(req) && req.total == |source|
    ensures AllServed(Perfect(source), Pending(start, req), req.total)
    decreases req.total - start
  {
    if start < req.total {
      var end := Least(req.total, start + req.chunkSize);
      RangesTile(start, end, req.rangeSize);
      PerfectServes(source, start + req.chunkSize, req);
      AllServedSplit(Perfect(source), Ranges(start, end, req.rangeSize), Pending(start + req.chunkSize, req),
                     req.total);
    }
  }

  /** A new download of any source from a server that answers in full returns, with any sizes of chunks and ranges,
      and leaves parts whose concatenation is the source. */
  lemma PerfectDownload(source: Bytes, snapshot: string, chunkSize: nat, rangeSize: nat, stamp: nat -> int)
    requires source != [] && snapshot != "" && chunkSize > 0 && rangeSize > 0
    ensures var t := Run(EMPTY, Job(Request(snapshot, |source|, chunkSize, rangeSize), Perfect(source), stamp));
            t.answer.Ok? && EndsFinished(t, source)
  {
    var job := Job(Request(snapshot, |source|, chunkSize, rangeSize), Perfect(source), stamp);
    PerfectServes(source, 0, job.req);
    assert Left(EMPTY, []) == EMPTY;
    ReturnsExactlyWhen([], job, source);
    ResumeGivesSource([], job, source);
  }
}
