/** `reconcile` reads its rows before its transaction opens. When another connection writes in between, the state and
    the due time it stores come from the row as it was read, and the other columns from the row as it is. Each game is
    read on its own, so the table `read` may hold rows of different moments. */
module QueueStale {
  import opened Directories
  import opened PostgameQueue
  import opened QueuePolls
  import opened QueueRuns
  import opened QueueTable
  import opened Wrappers
  import Runs

  /** The upsert of one poll, chosen from the row that was seen and written over the row that is there now. */
  function StaleMerge(seen: Option<Row>, now: Option<Row>, p: Poll, at: int): Row {
    var chosen := Merge(seen, p, at);
    match now
    case None =>
      Row(p.season, Identity(p), p.source, p.status, chosen.state, p.observed, chosen.due, None, None, 0, None, None)
    case Some(row) => row.(status := p.status, state := chosen.state, observed := p.observed, due := chosen.due)
  }

  function StaleUpserts(read: Table, t: Table, taken: seq<Poll>, at: int): Table {
    if taken == [] then t
    else
      var p := taken[|taken| - 1];
      StaleUpserts(read, t, taken[..|taken| - 1], at)
        [p.gameId := StaleMerge(Lookup(read, p.gameId), Lookup(t, p.gameId), p, at)]
  }

  /** Validated against the table `read`, written to the table `t`. */
  function StaleReconcile(read: Table, t: Table, polls: seq<Poll>, directory: Directory, at: int): Table {
    match Admit(read, polls, directory, at)
    case Rejected(_) => t
    case Admitted(taken) => StaleUpserts(read, t, taken, at)
  }

  /** With nothing in between this is the reconcile of the single-connection model. */
  lemma {:induction false} FreshUpserts(t: Table, taken: seq<Poll>, at: int)
    ensures StaleUpserts(t, t, taken, at) == Upserts(t, taken, at)
  {
    if taken != [] {
      FreshUpserts(t, taken[..|taken| - 1], at);
    }
  }

  lemma FreshReconcile(t: Table, polls: seq<Poll>, directory: Directory, at: int)
    ensures StaleReconcile(t, t, polls, directory, at) == Apply(t, Reconcile(polls, directory, at))
  {
    var a := Admit(t, polls, directory, at);
    if a.Admitted? {
      FreshUpserts(t, a.polls, at);
    }
  }

  lemma {:induction false} OthersUntouched(read: Table, t: Table, taken: seq<Poll>, at: int, g: string)
    requires forall p <- taken :: p.gameId != g
    ensures Lookup(StaleUpserts(read, t, taken, at), g) == Lookup(t, g)
  {
    if taken != [] {
      OthersUntouched(read, t, taken[..|taken| - 1], at, g);
    }
  }

  lemma {:induction false} StaleUpsertsAt(read: Table, t: Table, taken: seq<Poll>, at: int, p: Poll)
    requires Distinct(taken) && p in taken
    ensures Lookup(StaleUpserts(read, t, taken, at), p.gameId)
         == Some(StaleMerge(Lookup(read, p.gameId), Lookup(t, p.gameId), p, at))
  {
    if p != taken[|taken| - 1] {
      StaleUpsertsAt(read, t, taken[..|taken| - 1], at, p);
    }
  }

  /** The reconcile of these polls takes the poll `p`. */
  predicate Takes(read: Table, polls: seq<Poll>, directory: Directory, at: int, p: Poll) {
    var a := Admit(read, polls, directory, at); a.Admitted? && p in a.polls
  }

  lemma StaleRow(read: Table, t: Table, polls: seq<Poll>, directory: Directory, at: int, p: Poll)
    requires Takes(read, polls, directory, at, p)
    ensures Lookup(StaleReconcile(read, t, polls, directory, at), p.gameId)
         == Some(StaleMerge(Lookup(read, p.gameId), Lookup(t, p.gameId), p, at))
  {
    AdmittedAreDistinct(read, polls, directory, at);
    StaleUpsertsAt(read, t, Admit(read, polls, directory, at).polls, at, p);
  }

  /** Games without an admitted poll are left as they are. */
  lemma OtherRows(read: Table, t: Table, polls: seq<Poll>, directory: Directory, at: int, g: string)
    requires forall p: Poll :: Takes(read, polls, directory, at, p) ==> p.gameId != g
    ensures Lookup(StaleReconcile(read, t, polls, directory, at), g) == Lookup(t, g)
  {
    var a := Admit(read, polls, directory, at);
    if a.Admitted? {
      assert forall p <- a.polls :: Takes(read, polls, directory, at, p);
      OthersUntouched(read, t, a.polls, at, g);
    }
  }

  predicate SeenFinal(read: Table, g: string) {
    g in read && read[g].status == Final
  }

  /** A repeated final poll defeats a lease exactly when the game was not being validated when its row was read. */
  lemma LeaseSurvivesExactlyWhen(read: Table, t: Table, polls: seq<Poll>, directory: Directory, at: int, p: Poll,
                                 token: string)
    requires Takes(read, polls, directory, at, p) && Live(t, p.gameId, token)
    ensures Live(StaleReconcile(read, t, polls, directory, at), p.gameId, token) <==>
            p.status == Final && SeenFinal(read, p.gameId) && read[p.gameId].state == Validating
  {
    StaleRow(read, t, polls, directory, at, p);
  }

  /** A game quarantined by then stays so exactly when it was read as quarantined, or the poll reverses a result that
      was read as verified. */
  lemma QuarantineSurvivesExactlyWhen(read: Table, t: Table, polls: seq<Poll>, directory: Directory, at: int, p: Poll)
    requires Takes(read, polls, directory, at, p) && p.gameId in t && t[p.gameId].state == Quarantined
    ensures p.gameId in StaleReconcile(read, t, polls, directory, at)
    ensures StaleReconcile(read, t, polls, directory, at)[p.gameId].state == Quarantined <==>
            if p.status == Final then SeenFinal(read, p.gameId) && read[p.gameId].state == Quarantined
            else p.gameId in read && Truthy(read[p.gameId].verified)
  {
    StaleRow(read, t, polls, directory, at, p);
  }

  // ---- compared with reading and writing in one step ----

  /** The row that was seen and the row there now lead to the same state and due time. */
  predicate SameChoice(seen: Option<Row>, now: Row, p: Poll, at: int) {
    var wasFinal := seen.Some? && seen.value.status == Final;
    if p.status != Final then
      (seen.Some? && Truthy(seen.value.verified) <==> Truthy(now.verified))
    else if wasFinal && now.status == Final then seen.value.state == now.state && seen.value.due == now.due
    else if wasFinal then seen.value.state == FinalDetected && seen.value.due == Some(at)
    else if now.status == Final then now.state == FinalDetected && now.due == Some(at)
    else true
  }

  /** The rows a read saw are still there, and no observation went backwards. */
  predicate Later(read: Table, t: Table) {
    forall g <- read :: g in t && read[g].observed <= t[g].observed
  }

  lemma TakenWhen(t: Table, polls: seq<Poll>, directory: Directory, at: int, p: Poll)
    requires Takes(t, polls, directory, at, p)
    ensures p in polls && Screen(Lookup(t, p.gameId), p, directory, at) == Taken && Considered(p, directory)
    ensures p.gameId in t ==> t[p.gameId].observed <= p.observed
  {
    AdmittedExactlyWhen(t, polls, directory, at);
    AdmittedAreDistinct(t, polls, directory, at);
  }

  /** One row of a batch that a single step would also admit. */
  lemma RowSerialExactlyWhen(read: Table, t: Table, polls: seq<Poll>, directory: Directory, at: int, p: Poll)
    requires Takes(read, polls, directory, at, p) && Admit(t, polls, directory, at).Admitted? && p.gameId in t
    ensures var stale := StaleReconcile(read, t, polls, directory, at);
            var serial := Apply(t, Reconcile(polls, directory, at));
            (Lookup(stale, p.gameId) == Lookup(serial, p.gameId)) <==>
            t[p.gameId].observed <= p.observed && SameChoice(Lookup(read, p.gameId), t[p.gameId], p, at)
  {
    TakenWhen(read, polls, directory, at, p);
    StaleRow(read, t, polls, directory, at, p);
    if p.observed < t[p.gameId].observed {
      IgnoredRow(t, polls, directory, at, p);
    } else {
      SerialRow(t, polls, directory, at, p);
      MergeSame(Lookup(read, p.gameId), t[p.gameId], p, at);
    }
  }

  /** A poll that is new enough is merged into the row by a single step. */
  lemma SerialRow(t: Table, polls: seq<Poll>, directory: Directory, at: int, p: Poll)
    requires Admit(t, polls, directory, at).Admitted? && p in polls && Considered(p, directory)
    requires p.gameId in t ==> t[p.gameId].observed <= p.observed
    ensures Lookup(Apply(t, Reconcile(polls, directory, at)), p.gameId) == Some(Merge(Lookup(t, p.gameId), p, at))
  {
    AdmittedExactlyWhen(t, polls, directory, at);
    assert Writes(t, Reconcile(polls, directory, at), p);
    RowStep(t, Reconcile(polls, directory, at), p.gameId);
  }

  /** A poll that a single step ignores leaves the row as it is. */
  lemma IgnoredRow(t: Table, polls: seq<Poll>, directory: Directory, at: int, p: Poll)
    requires Admit(t, polls, directory, at).Admitted? && p in polls
    requires Considered(p, directory) ==> p.gameId in t && p.observed < t[p.gameId].observed
    ensures Lookup(Apply(t, Reconcile(polls, directory, at)), p.gameId) == Lookup(t, p.gameId)
  {
    AdmittedExactlyWhen(t, polls, directory, at);
    AdmittedAreDistinct(t, polls, directory, at);
    assert !Takes(t, polls, directory, at, p);
    FreshReconcile(t, polls, directory, at);
    forall q: Poll | Takes(t, polls, directory, at, q)
      ensures q.gameId != p.gameId
    {
      if q.gameId == p.gameId {
        SameGameSamePoll(polls, p, q);
      }
    }
    OtherRows(t, t, polls, directory, at, p.gameId);
  }

  lemma MergeSame(seen: Option<Row>, now: Row, p: Poll, at: int)
    ensures StaleMerge(seen, Some(now), p, at) == Merge(Some(now), p, at) <==> SameChoice(seen, now, p, at)
  {
  }

  lemma NewRowSerial(read: Table, t: Table, polls: seq<Poll>, directory: Directory, at: int, p: Poll)
    requires Takes(read, polls, directory, at, p) && Admit(t, polls, directory, at).Admitted?
    requires p.gameId !in t && p.gameId !in read
    ensures Lookup(StaleReconcile(read, t, polls, directory, at), p.gameId)
         == Lookup(Apply(t, Reconcile(polls, directory, at)), p.gameId)
  {
    TakenWhen(read, polls, directory, at, p);
    StaleRow(read, t, polls, directory, at, p);
    SerialRow(t, polls, directory, at, p);
  }

  /** Every polled game that is there by now was not observed later than its poll and leads to the same choice. */
  ghost predicate Harmless(read: Table, t: Table, polls: seq<Poll>, directory: Directory, at: int) {
    forall p: Poll :: Takes(read, polls, directory, at, p) && p.gameId in t ==>
      t[p.gameId].observed <= p.observed && SameChoice(Lookup(read, p.gameId), t[p.gameId], p, at)
  }

  /** A game no poll of the batch is taken for at the read is left alone by both ways of writing. */
  lemma UntakenRow(read: Table, t: Table, polls: seq<Poll>, directory: Directory, at: int, g: string)
    requires Admit(read, polls, directory, at).Admitted? && Admit(t, polls, directory, at).Admitted? && Later(read, t)
    requires forall p: Poll :: Takes(read, polls, directory, at, p) ==> p.gameId != g
    ensures Lookup(StaleReconcile(read, t, polls, directory, at), g) == Lookup(t, g)
    ensures Lookup(Apply(t, Reconcile(polls, directory, at)), g) == Lookup(t, g)
  {
    OtherRows(read, t, polls, directory, at, g);
    if q: Poll :| q in polls && q.gameId == g {
      NotTaken(read, polls, directory, at, q);
      IgnoredRow(t, polls, directory, at, q);
    } else {
      AdmittedAreDistinct(t, polls, directory, at);
      FreshReconcile(t, polls, directory, at);
      OtherRows(t, t, polls, directory, at, g);
    }
  }

  lemma NotTaken(t: Table, polls: seq<Poll>, directory: Directory, at: int, p: Poll)
    requires Admit(t, polls, directory, at).Admitted? && p in polls && !Takes(t, polls, directory, at, p)
    ensures Considered(p, directory) ==> p.gameId in t && p.observed < t[p.gameId].observed
  {
    AdmittedExactlyWhen(t, polls, directory, at);
  }

  /** A batch that both the read and a single step admit is written as in a single step exactly when every poll taken
      is harmless. */
  lemma BatchSerialExactlyWhen(read: Table, t: Table, polls: seq<Poll>, directory: Directory, at: int)
    requires Admit(read, polls, directory, at).Admitted? && Admit(t, polls, directory, at).Admitted? && Later(read, t)
    ensures StaleReconcile(read, t, polls, directory, at) == Apply(t, Reconcile(polls, directory, at))
            <==> Harmless(read, t, polls, directory, at)
  {
    var stale, serial := StaleReconcile(read, t, polls, directory, at), Apply(t, Reconcile(polls, directory, at));
    if Harmless(read, t, polls, directory, at) {
      forall g
        ensures Lookup(stale, g) == Lookup(serial, g)
      {
        if p: Poll :| Takes(read, polls, directory, at, p) && p.gameId == g {
          if g in t {
            RowSerialExactlyWhen(read, t, polls, directory, at, p);
          } else {
            NewRowSerial(read, t, polls, directory, at, p);
          }
        } else {
          UntakenRow(read, t, polls, directory, at, g);
        }
      }
      TablesEqual(stale, serial);
    }
    if stale == serial {
      forall p: Poll | Takes(read, polls, directory, at, p) && p.gameId in t
        ensures t[p.gameId].observed <= p.observed && SameChoice(Lookup(read, p.gameId), t[p.gameId], p, at)
      {
        RowSerialExactlyWhen(read, t, polls, directory, at, p);
      }
    }
  }

  /** A batch that a single step would refuse is written all the same, unless it finds every row as it would leave
      it. */
  lemma RefusedBatchWritten(read: Table, t: Table, polls: seq<Poll>, directory: Directory, at: int)
    requires Admit(read, polls, directory, at).Admitted? && Admit(t, polls, directory, at).Rejected?
    ensures Apply(t, Reconcile(polls, directory, at)) == t
    ensures StaleReconcile(read, t, polls, directory, at) == t <==>
            forall p: Poll :: Takes(read, polls, directory, at, p) ==>
              Lookup(t, p.gameId) == Some(StaleMerge(Lookup(read, p.gameId), Lookup(t, p.gameId), p, at))
  {
    var stale := StaleReconcile(read, t, polls, directory, at);
    forall p: Poll | Takes(read, polls, directory, at, p)
      ensures Lookup(stale, p.gameId) == Some(StaleMerge(Lookup(read, p.gameId), Lookup(t, p.gameId), p, at))
    {
      StaleRow(read, t, polls, directory, at, p);
    }
    if forall p: Poll :: Takes(read, polls, directory, at, p) ==> Lookup(t, p.gameId) == Lookup(stale, p.gameId) {
      forall g
        ensures Lookup(stale, g) == Lookup(t, g)
      {
        if p: Poll :| Takes(read, polls, directory, at, p) && p.gameId == g {
        } else {
          OtherRows(read, t, polls, directory, at, g);
        }
      }
      TablesEqual(stale, t);
    }
  }

  lemma OnePoll(t: Table, p: Poll, directory: Directory, at: int)
    requires p.gameId != ""
    ensures Admit(t, [p], directory, at) ==
            match Screen(Lookup(t, p.gameId), p, directory, at)
            case Refused(why) => Rejected(why)
            case Ignored => Admitted([])
            case Taken => Admitted([p])
  {
    AdmitStep(t, [], p, directory, at);
    assert [] + [p] == [p];
  }

  lemma OnlyItsRow(read: Table, t: Table, p: Poll, directory: Directory, at: int, g: string)
    requires p.gameId != "" && g != p.gameId
    ensures Lookup(StaleReconcile(read, t, [p], directory, at), g) == Lookup(t, g)
  {
    OnePoll(read, p, directory, at);
    OtherRows(read, t, [p], directory, at, g);
  }

  /** What a single step makes of a poll that was fit to be taken when read. */
  lemma ScreenedNow(prior: Option<Row>, row: Row, p: Poll, directory: Directory, at: int)
    requires Screen(prior, p, directory, at) == Taken && SameGame(row, p)
    ensures Screen(Some(row), p, directory, at) ==
            if p.observed < row.observed then Ignored
            else if p.observed == row.observed && p.status != row.status then Refused(SameTimeConflict)
            else Taken
  {
  }

  predicate Conflicts(row: Row, p: Poll) {
    row.observed == p.observed && row.status != p.status
  }

  lemma AdmittedNow(read: Table, t: Table, p: Poll, directory: Directory, at: int)
    requires Takes(read, [p], directory, at, p) && p.gameId in t && SameGame(t[p.gameId], p)
    ensures p.gameId != "" && (Admit(t, [p], directory, at).Admitted? <==> !Conflicts(t[p.gameId], p))
  {
    AdmittedExactlyWhen(read, [p], directory, at);
    TakenWhen(read, [p], directory, at, p);
    ScreenedNow(Lookup(read, p.gameId), t[p.gameId], p, directory, at);
    assert p in [p];
    OnePoll(t, p, directory, at);
  }

  /** One poll of a game that is the same game by now is written as in a single step exactly when no newer observation
      and no conflicting one was stored in between and the choice is the same. */
  lemma OnePollSerialExactlyWhen(read: Table, t: Table, p: Poll, directory: Directory, at: int)
    requires Takes(read, [p], directory, at, p) && p.gameId in t && SameGame(t[p.gameId], p)
    ensures StaleReconcile(read, t, [p], directory, at) == Apply(t, Reconcile([p], directory, at))
            <==>
            && t[p.gameId].observed <= p.observed && !Conflicts(t[p.gameId], p)
            && SameChoice(Lookup(read, p.gameId), t[p.gameId], p, at)
  {
    AdmittedNow(read, t, p, directory, at);
    OneRowDecides(read, t, p, directory, at);
    if Conflicts(t[p.gameId], p) {
      StaleRow(read, t, [p], directory, at, p);
    } else {
      RowSerialExactlyWhen(read, t, [p], directory, at, p);
    }
  }

  lemma OneRowDecides(read: Table, t: Table, p: Poll, directory: Directory, at: int)
    requires Takes(read, [p], directory, at, p)
    ensures var stale, serial := StaleReconcile(read, t, [p], directory, at), Apply(t, Reconcile([p], directory, at));
            stale == serial <==> Lookup(stale, p.gameId) == Lookup(serial, p.gameId)
  {
    var stale, serial := StaleReconcile(read, t, [p], directory, at), Apply(t, Reconcile([p], directory, at));
    AdmittedExactlyWhen(read, [p], directory, at);
    TakenWhen(read, [p], directory, at, p);
    FreshReconcile(t, [p], directory, at);
    forall h | h != p.gameId
      ensures Lookup(stale, h) == Lookup(serial, h)
    {
      OnlyItsRow(read, t, p, directory, at, h);
      OnlyItsRow(t, t, p, directory, at, h);
    }
    if Lookup(stale, p.gameId) == Lookup(serial, p.gameId) {
      TablesEqual(stale, serial);
    }
  }

  // ---- what happened in between ----

  /** No call grants or finishes the game or writes a poll of it. */
  ghost predicate Quiet(read: Table, es: seq<Event>, g: string) {
    forall k :: 0 <= k < |es| ==> LeavesAlone(Runs.After(Apply, read, es, k), es[k], g)
  }

  ghost predicate LeavesAlone(t: Table, e: Event, g: string) {
    !Grants(t, e, g) && !Finishes(t, e, g) && forall p: Poll :: Writes(t, e, p) ==> p.gameId != g
  }

  lemma AloneKeeps(t: Table, e: Event, g: string)
    requires LeavesAlone(t, e, g)
    ensures Lookup(t, g) == Lookup(Apply(t, e), g)
  {
    RowStep(t, e, g);
  }

  lemma QuietKeeps(read: Table, es: seq<Event>, g: string)
    requires Quiet(read, es, g)
    ensures Lookup(read, g) == Lookup(Runs.After(Apply, read, es, |es|), g)
  {
    forall k | 0 <= k < |es|
      ensures Lookup(Runs.After(Apply, read, es, k), g) == Lookup(Apply(Runs.After(Apply, read, es, k), es[k]), g)
    {
      AloneKeeps(Runs.After(Apply, read, es, k), es[k], g);
    }
    Runs.Respects(Apply, read, es, 0, |es|, (s: Table, t: Table) => Lookup(s, g) == Lookup(t, g));
  }

  lemma {:induction false} SameRowsSameAnswer(read: Table, t: Table, polls: seq<Poll>, directory: Directory, at: int)
    requires forall p <- polls :: Lookup(read, p.gameId) == Lookup(t, p.gameId)
    ensures Admit(read, polls, directory, at) == Admit(t, polls, directory, at)
  {
    if polls != [] {
      assert polls[|polls| - 1] in polls && forall p <- polls[..|polls| - 1] :: p in polls;
      SameRowsSameAnswer(read, t, polls[..|polls| - 1], directory, at);
    }
  }

  lemma {:induction false} SameRowsSameWrites(read: Table, t: Table, taken: seq<Poll>, at: int)
    requires forall p <- taken :: Lookup(read, p.gameId) == Lookup(t, p.gameId)
    ensures StaleUpserts(read, t, taken, at) == Upserts(t, taken, at)
  {
    if taken != [] {
      assert taken[|taken| - 1] in taken && forall p <- taken[..|taken| - 1] :: p in taken;
      SameRowsSameWrites(read, t, taken[..|taken| - 1], at);
    }
  }

  /** If every call in between leaves every polled game alone, the batch does what it would do in one step, whatever
      happened to other games. */
  lemma QuietIsSerial(read: Table, es: seq<Event>, polls: seq<Poll>, directory: Directory, at: int)
    requires forall p <- polls :: Quiet(read, es, p.gameId)
    ensures var t := Runs.After(Apply, read, es, |es|);
            StaleReconcile(read, t, polls, directory, at) == Apply(t, Reconcile(polls, directory, at))
  {
    var t := Runs.After(Apply, read, es, |es|);
    forall p | p in polls
      ensures Lookup(read, p.gameId) == Lookup(t, p.gameId)
    {
      QuietKeeps(read, es, p.gameId);
    }
    SameRowsSameAnswer(read, t, polls, directory, at);
    var a := Admit(read, polls, directory, at);
    if a.Admitted? {
      AdmittedAreDistinct(read, polls, directory, at);
      SameRowsSameWrites(read, t, a.polls, at);
    }
  }

  /** A call writes a poll of the game that was observed after `x`. */
  ghost predicate WritesNewer(t: Table, e: Event, g: string, x: int) {
    exists q: Poll :: Writes(t, e, q) && q.gameId == g && q.observed > x
  }

  ghost predicate ObservedAfter(t: Table, g: string, x: int) {
    g in t && t[g].observed > x
  }

  lemma ObservedStep(t: Table, e: Event, g: string, x: int)
    ensures ObservedAfter(Apply(t, e), g, x) <==> ObservedAfter(t, g, x) || WritesNewer(t, e, g, x)
    ensures g in t ==> g in Apply(t, e) && t[g].observed <= Apply(t, e)[g].observed
  {
    RowStep(t, e, g);
    if q: Poll :| Writes(t, e, q) && q.gameId == g {
      AdmittedAreRecognized(t, e.polls, e.directory, e.at);
      AdmittedAreDistinct(t, e.polls, e.directory, e.at);
      forall r: Poll | Writes(t, e, r) && r.gameId == g
        ensures r == q
      {
        SameGameSamePoll(e.polls, q, r);
      }
    }
  }

  lemma CallKeepsLater(t: Table, e: Event)
    ensures Later(t, Apply(t, e))
  {
    forall g | g in t
      ensures g in Apply(t, e) && t[g].observed <= Apply(t, e)[g].observed
    {
      ObservedStep(t, e, g, 0);
    }
  }

  /** Whatever calls come in between, the rows stay and no observation goes backwards. */
  lemma CallsKeepLater(read: Table, es: seq<Event>)
    ensures Later(read, Runs.After(Apply, read, es, |es|))
  {
    forall k | 0 <= k < |es|
      ensures Later(Runs.After(Apply, read, es, k), Apply(Runs.After(Apply, read, es, k), es[k]))
    {
      CallKeepsLater(Runs.After(Apply, read, es, k), es[k]);
    }
    Runs.Respects(Apply, read, es, 0, |es|, (s: Table, t: Table) => Later(s, t));
  }

  /** One of the first `n` calls after the read writes a newer poll. */
  ghost predicate NewerBefore(read: Table, es: seq<Event>, n: nat, g: string, x: int) {
    Runs.CausedBefore(Apply, read, es, n, (t, e) => WritesNewer(t, e, g, x))
  }

  lemma ObservedBetween(read: Table, es: seq<Event>, n: nat, g: string, x: int)
    requires n <= |es| && !ObservedAfter(read, g, x)
    ensures ObservedAfter(Runs.After(Apply, read, es, n), g, x) <==> NewerBefore(read, es, n, g, x)
  {
    forall t, e
      ensures ObservedAfter(Apply(t, e), g, x) <==> ObservedAfter(t, g, x) || WritesNewer(t, e, g, x)
    {
      ObservedStep(t, e, g, x);
    }
    Runs.HoldsAfterCause(Apply, read, es, n, (t: Table) => ObservedAfter(t, g, x), (t, e) => WritesNewer(t, e, g, x));
  }

  /** A stale write takes the row back to an older observation exactly when a newer poll of the game was written
      between the read and the write. */
  lemma MovesBackExactlyWhen(read: Table, es: seq<Event>, polls: seq<Poll>, directory: Directory, at: int, p: Poll)
    requires Takes(read, polls, directory, at, p)
    ensures var t := Runs.After(Apply, read, es, |es|); var stale := StaleReconcile(read, t, polls, directory, at);
            && p.gameId in stale
            && ((p.gameId in t && stale[p.gameId].observed < t[p.gameId].observed) <==>
                NewerBefore(read, es, |es|, p.gameId, p.observed))
  {
    TakenWhen(read, polls, directory, at, p);
    ObservedBetween(read, es, |es|, p.gameId, p.observed);
    StaleRow(read, Runs.After(Apply, read, es, |es|), polls, directory, at, p);
  }

  /** A lease granted in between is lost, unless the game was under an earlier lease when it was read. */
  lemma GrantInBetween(read: Table, e: Event, polls: seq<Poll>, directory: Directory, at: int, p: Poll)
    requires Takes(read, polls, directory, at, p) && p.status == Final && Grants(read, e, p.gameId)
    ensures Live(Apply(read, e), p.gameId, e.token)
    ensures Live(StaleReconcile(read, Apply(read, e), polls, directory, at), p.gameId, e.token) <==>
            read[p.gameId].state == Validating
  {
    RowStep(read, e, p.gameId);
    LeaseSurvivesExactlyWhen(read, Apply(read, e), polls, directory, at, p, e.token);
  }

  /** A worker's quarantine in between is undone: the game waits again, with its old due time and no lease. */
  lemma QuarantineInBetween(read: Table, e: Event, polls: seq<Poll>, directory: Directory, at: int, p: Poll, x: int)
    requires Takes(read, polls, directory, at, p) && p.status == Final && Finishes(read, e, p.gameId)
    requires Apply(read, e)[p.gameId].state == Quarantined && read[p.gameId].due.Some? && read[p.gameId].due.value <= x
    ensures !Eligible(Apply(read, e)[p.gameId], x)
    ensures var t := StaleReconcile(read, Apply(read, e), polls, directory, at);
            p.gameId in t && Eligible(t[p.gameId], x)
  {
    RowStep(read, e, p.gameId);
    StaleRow(read, Apply(read, e), polls, directory, at, p);
  }

  // ---- runs from a new queue ----

  /** The poll of one game with another status. */
  function Sight(at: int, status: Status): Poll {
    FirstSight(at).(status := status)
  }

  lemma SightScreened(prior: Option<Row>, seen: int, status: Status, at: int)
    requires seen <= at && !status.Unrecognized?
    requires prior.Some? ==> SameGame(prior.value, FirstSight(0)) && prior.value.observed < seen
    ensures Screen(prior, Sight(seen, status), TEAMS, at) == Taken
  {
    var p := Sight(seen, status);
    assert p.teams[0] in p.teams;
    assert Identity(p) == Identity(FirstSight(0));
  }

  /** A queue of one game whose poll is taken. */
  lemma SightTaken(t: Table, seen: int, status: Status, at: int)
    requires seen <= at && !status.Unrecognized? && t.Keys <= {"g"}
    requires "g" in t ==> SameGame(t["g"], FirstSight(0)) && t["g"].observed < seen
    ensures Takes(t, [Sight(seen, status)], TEAMS, at, Sight(seen, status))
    ensures Apply(t, Reconcile([Sight(seen, status)], TEAMS, at)) ==
            map["g" := Merge(Lookup(t, "g"), Sight(seen, status), at)]
  {
    var p := Sight(seen, status);
    SightScreened(Lookup(t, "g"), seen, status, at);
    OnePoll(t, p, TEAMS, at);
    assert p in [p] && [p][..0] == [];
    assert Upserts(t, [p], at) == t["g" := Merge(Lookup(t, "g"), p, at)];
  }

  function SightEvent(seen: int, status: Status, at: int): Event {
    Reconcile([Sight(seen, status)], TEAMS, at)
  }

  /** An older final poll that was read first is written last: the newer observation is lost, which one step keeps. */
  lemma OlderPollWrittenLast()
    ensures var es := [SightEvent(0, Final, 0), SightEvent(10, Final, 10)];
            var stale := StaleReconcile(After(es, 1), After(es, 2), [Sight(5, Final)], TEAMS, 10);
            && "g" in stale && stale["g"].observed == 5 && "g" in After(es, 2) && After(es, 2)["g"].observed == 10
            && Apply(After(es, 2), SightEvent(5, Final, 10)) == After(es, 2)
  {
    var es := [SightEvent(0, Final, 0), SightEvent(10, Final, 10)];
    TwoSights(es, Final, Final);
    StaleRow(After(es, 1), After(es, 2), [Sight(5, Final)], TEAMS, 10, Sight(5, Final));
    OnePoll(After(es, 2), Sight(5, Final), TEAMS, 10);
    OlderIgnored(After(es, 2)["g"], 5, Final, 10);
  }

  lemma OlderIgnored(row: Row, seen: int, status: Status, at: int)
    requires SameGame(row, FirstSight(0)) && seen < row.observed && seen <= at && !status.Unrecognized?
    ensures Screen(Some(row), Sight(seen, status), TEAMS, at) == Ignored
  {
    var p := Sight(seen, status);
    assert p.teams[0] in p.teams;
    assert Identity(p) == Identity(FirstSight(0));
  }

  lemma TwoSights(es: seq<Event>, first: Status, second: Status)
    requires !first.Unrecognized? && !second.Unrecognized?
    requires es == [SightEvent(0, first, 0), SightEvent(10, second, 10)]
    ensures After(es, 1) == map["g" := Merge(None, Sight(0, first), 0)]
    ensures After(es, 2) == map["g" := Merge(Some(Merge(None, Sight(0, first), 0)), Sight(10, second), 10)]
    ensures forall status: Status :: !status.Unrecognized? ==>
              Takes(After(es, 1), [Sight(5, status)], TEAMS, 10, Sight(5, status))
  {
    assert After(es, 0) == map[];
    SightTaken(map[], 0, first, 0);
    assert Identity(Sight(0, first)) == Identity(FirstSight(0));
    SightTaken(After(es, 1), 10, second, 10);
    forall status: Status | !status.Unrecognized?
      ensures Takes(After(es, 1), [Sight(5, status)], TEAMS, 10, Sight(5, status))
    {
      SightTaken(After(es, 1), 5, status, 10);
    }
  }

  /** An older poll hides a final game: it was eligible and is no longer, at any clock. */
  lemma OlderPollHidesFinal(x: int)
    requires x >= 10
    ensures var es := [SightEvent(0, Scheduled, 0), SightEvent(10, Final, 10)];
            var stale := StaleReconcile(After(es, 1), After(es, 2), [Sight(5, InProgress)], TEAMS, 10);
            && "g" in After(es, 2) && Eligible(After(es, 2)["g"], x)
            && "g" in stale && stale["g"].status == InProgress && !Eligible(stale["g"], x)
  {
    var es := [SightEvent(0, Scheduled, 0), SightEvent(10, Final, 10)];
    TwoSights(es, Scheduled, Final);
    StaleRow(After(es, 1), After(es, 2), [Sight(5, InProgress)], TEAMS, 10, Sight(5, InProgress));
  }

  /** A repeated final poll takes away a lease granted after its read. */
  lemma PollDefeatsLease()
    ensures var es := [SightEvent(0, Final, 0), Claim(0, 300, "x")];
            var stale := StaleReconcile(After(es, 1), After(es, 2), [Sight(1, Final)], TEAMS, 1);
            && Live(After(es, 2), "g", "x") && !Live(stale, "g", "x")
            && Live(Apply(After(es, 2), SightEvent(1, Final, 1)), "g", "x")
  {
    var es := [SightEvent(0, Final, 0), Claim(0, 300, "x")];
    var row := Merge(None, Sight(0, Final), 0);
    assert After(es, 0) == map[];
    SightTaken(map[], 0, Final, 0);
    SoleGrant(row, es[1]);
    LeaseDefeated(row, es[1]);
  }

  lemma LeaseDefeated(row: Row, e: Event)
    requires row == Merge(None, Sight(0, Final), 0) && e == Claim(0, 300, "x")
    requires Grants(map["g" := row], e, "g")
    ensures var t := Apply(map["g" := row], e);
            && Live(t, "g", "x") && !Live(StaleReconcile(map["g" := row], t, [Sight(1, Final)], TEAMS, 1), "g", "x")
            && Live(Apply(t, SightEvent(1, Final, 1)), "g", "x")
  {
    assert Identity(Sight(0, Final)) == Identity(FirstSight(0));
    SightTaken(map["g" := row], 1, Final, 1);
    GrantInBetween(map["g" := row], e, [Sight(1, Final)], TEAMS, 1, Sight(1, Final));
    SoleGrant(row, e);
    SightTaken(map["g" := Lease(row, 0, 300, "x")], 1, Final, 1);
  }

  /** A repeated final poll undoes a quarantine made after its read. */
  lemma PollUndoesQuarantine(x: int)
    requires x >= 0
    ensures var es := [SightEvent(0, Final, 0), Claim(0, 300, "x"),
                       Finish("g", "x", 1, None, Some("bad"), Some(Quarantined), 1)];
            var stale := StaleReconcile(After(es, 2), After(es, 3), [Sight(1, Final)], TEAMS, 1);
            && "g" in After(es, 3) && After(es, 3)["g"].state == Quarantined
            && "g" in stale && stale["g"].state != Quarantined && Eligible(stale["g"], x)
  {
    var es := [SightEvent(0, Final, 0), Claim(0, 300, "x"),
               Finish("g", "x", 1, None, Some("bad"), Some(Quarantined), 1)];
    var row := Merge(None, Sight(0, Final), 0);
    assert After(es, 0) == map[];
    SightTaken(map[], 0, Final, 0);
    assert Identity(Sight(0, Final)) == Identity(FirstSight(0));
    SoleGrant(row, es[1]);
    SoleFinish(Lease(row, 0, 300, "x"), es[2]);
    SightTaken(After(es, 2), 1, Final, 1);
    QuarantineInBetween(After(es, 2), es[2], [Sight(1, Final)], TEAMS, 1, Sight(1, Final), x);
  }

  function SightOf(id: string, seen: int, status: Status): Poll {
    Sight(seen, status).(gameId := id)
  }

  lemma NewSightTaken(t: Table, id: string, seen: int, status: Status, at: int)
    requires id !in t && seen <= at && !status.Unrecognized?
    ensures Screen(Lookup(t, id), SightOf(id, seen, status), TEAMS, at) == Taken
  {
    var p := SightOf(id, seen, status);
    assert p.teams[0] in p.teams;
  }

  lemma ConflictRefused(row: Row, id: string, status: Status, at: int)
    requires SameGame(row, FirstSight(0)) && row.observed <= at && row.status != status && !status.Unrecognized?
    ensures Screen(Some(row), SightOf(id, row.observed, status), TEAMS, at).Refused?
  {
    var p := SightOf(id, row.observed, status);
    assert p.teams[0] in p.teams;
    assert Identity(p) == Identity(FirstSight(0));
  }

  lemma TwoPolls(t: Table, p: Poll, q: Poll, directory: Directory, at: int)
    requires p.gameId != "" && q.gameId != "" && p.gameId != q.gameId
    requires Screen(Lookup(t, p.gameId), p, directory, at) == Taken
    ensures Admit(t, [p, q], directory, at) ==
            match Screen(Lookup(t, q.gameId), q, directory, at)
            case Refused(why) => Rejected(why)
            case Ignored => Admitted([p])
            case Taken => Admitted([p, q])
  {
    OnePoll(t, p, directory, at);
    AdmitStep(t, [p], q, directory, at);
    assert [p] + [q] == [p, q];
    assert !Mentions([p], q.gameId);
  }

  /** Two polls, the second of which conflicts with its row: nothing is admitted. */
  lemma ConflictRefusesBatch(row: Row, p: Poll, status: Status, at: int)
    requires SameGame(row, FirstSight(0)) && row.observed <= at && row.status != status && !status.Unrecognized?
    requires p.gameId != "" && p.gameId != "h" && Screen(None, p, TEAMS, at) == Taken
    ensures Apply(map["h" := row], Reconcile([p, SightOf("h", row.observed, status)], TEAMS, at)) == map["h" := row]
  {
    ConflictRefused(row, "h", status, at);
    TwoPolls(map["h" := row], p, SightOf("h", row.observed, status), TEAMS, at);
  }

  lemma BothNewTaken(p: Poll, q: Poll, t: Table, at: int)
    requires p.gameId != "" && q.gameId != "" && p.gameId != q.gameId
    requires Screen(None, p, TEAMS, at) == Taken && Screen(None, q, TEAMS, at) == Taken
    ensures p.gameId in StaleReconcile(map[], t, [p, q], TEAMS, at)
  {
    TwoPolls(map[], p, q, TEAMS, at);
    assert p in [p, q];
    StaleRow(map[], t, [p, q], TEAMS, at, p);
  }

  lemma OtherGameIsQuiet(p: Poll, at: int, g: string)
    requires p.gameId != "" && p.gameId != g && Screen(None, p, TEAMS, at) == Taken
    ensures Quiet(map[], [Reconcile([p], TEAMS, at)], g)
  {
    OnePoll(map[], p, TEAMS, at);
  }

  /** A batch is written although one step would refuse all of it: its first game is untouched in between, but the
      second was polled with another status for the same time. */
  lemma RefusedBatchWrittenRun()
    ensures var es := [Reconcile([SightOf("h", 10, Final)], TEAMS, 10)];
            var polls := [Sight(5, Final), SightOf("h", 10, Scheduled)];
            && Quiet(After(es, 0), es, "g")
            && "g" in StaleReconcile(After(es, 0), After(es, 1), polls, TEAMS, 10)
            && "g" !in Apply(After(es, 1), Reconcile(polls, TEAMS, 10))
  {
    var first := SightOf("h", 10, Final);
    var es := [Reconcile([first], TEAMS, 10)];
    assert After(es, 0) == map[];
    NewSightTaken(map[], "h", 10, Final, 10);
    SoleTaken(first, TEAMS, 10);
    OtherGameIsQuiet(first, 10, "g");
    assert SightOf("g", 5, Final) == Sight(5, Final);
    NewSightTaken(map[], "g", 5, Final, 10);
    NewSightTaken(map[], "h", 10, Scheduled, 10);
    BothNewTaken(Sight(5, Final), SightOf("h", 10, Scheduled), After(es, 1), 10);
    assert Identity(first) == Identity(FirstSight(0));
    ConflictRefusesBatch(Merge(None, first, 10), Sight(5, Final), Scheduled, 10);
  }
}
