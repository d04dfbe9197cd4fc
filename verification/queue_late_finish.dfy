/** `finish` tests the lease on a row it selects before its transaction opens, and its update names the game alone.
    When another connection writes in between, the test speaks of the row as it was read. */
module QueueLateFinish {
  import opened QueueRuns
  import opened QueueStale
  import opened QueueTable
  import opened Wrappers

  /** The update: the state and the due time come from the row that was seen, a missing version from the row there
      now. */
  function LateClose(seen: Row, now: Row, e: Event): Row
    requires e.Finish?
  {
    var chosen := Close(seen, e.at, e.version, e.error, e.failure, e.retry);
    now.(state := chosen.state, due := chosen.due, token := None, leaseUntil := None, error := e.error,
         verified := if e.version.Some? then e.version else now.verified)
  }

  /** Tested against the table `read`, written to the table `t`. */
  function LateFinish(read: Table, t: Table, e: Event): Table
    requires e.Finish?
  {
    if Finishes(read, e, e.gameId) && e.gameId in read && e.gameId in t
    then t[e.gameId := LateClose(read[e.gameId], t[e.gameId], e)]
    else t
  }

  /** With nothing in between this is the finish of the single-connection model. */
  lemma PromptFinish(t: Table, e: Event)
    requires e.Finish?
    ensures LateFinish(t, t, e) == Apply(t, e)
  {
  }

  /** The arguments `finish` accepts, whatever the table holds. */
  predicate Acceptable(e: Event) {
    && e.Finish? && 1 <= e.retry <= 86400
    && if Truthy(e.version) then !Truthy(e.error) && e.failure.None? else FailureState(e.failure)
  }

  lemma AcceptedExactlyWhen(t: Table, e: Event)
    requires e.Finish?
    ensures Finishes(t, e, e.gameId) <==> Acceptable(e) && Holds(t, e.gameId, e.token, e.at)
  {
  }

  // ---- when the lease test passes ----

  /** The token is honoured by the table after `m` calls exactly from its grant to the write of its finish. */
  lemma HonouredExactlyBetween(es: seq<Event>, k: nat, m: nat, g: string, at: int) returns (i: nat)
    requires FreshTokens(es) && FinishesAt(es, k, g) && m <= |es|
    ensures i < k && GrantsAt(es, i, g) && es[i].token == es[k].token
    ensures Holds(After(es, m), g, es[k].token, at) <==> i < m <= k && at < Expiry(es[i])
  {
    i := FinishNeedsLatestGrant(es, k, g);
    if m <= i {
      NotYetIssued(es, i, m, g);
    } else if m <= k {
      HonouredUntilFinish(es, i, m, k, g);
    } else {
      DeadAfterFinish(es, k, g);
      StaysDead(es, i, k + 1, m, g);
    }
  }

  lemma NotYetIssued(es: seq<Event>, i: nat, m: nat, g: string)
    requires FreshTokens(es) && m <= i && GrantsAt(es, i, g)
    ensures !Live(After(es, m), g, es[i].token)
  {
    if Live(After(es, m), g, es[i].token) {
      var j := TokenNamesLatestGrant(es, m, g);
    }
  }

  lemma HonouredUntilFinish(es: seq<Event>, i: nat, m: nat, k: nat, g: string)
    requires FreshTokens(es) && FinishesAt(es, k, g) && i < m <= k && GrantsAt(es, i, g) && es[k].token == es[i].token
    ensures Live(After(es, m), g, es[i].token) && After(es, m)[g].leaseUntil == Some(Expiry(es[i]))
  {
    if !Live(After(es, m), g, es[i].token) {
      RevokedForGood(es, i, m, k, g);
    } else {
      var j := TokenNamesLatestGrant(es, m, g);
      assert j == i;
    }
  }

  /** A grant that was finished is finished a second time exactly when the second call read the row before the first
      one wrote it, with the lease not yet expired at its clock. */
  lemma FinishedAgainExactlyWhen(es: seq<Event>, k: nat, m: nat, e: Event) returns (i: nat)
    requires Acceptable(e) && FreshTokens(es) && FinishesAt(es, k, e.gameId) && m <= |es| && e.token == es[k].token
    ensures i < k && GrantsAt(es, i, e.gameId) && es[i].token == e.token
    ensures Finishes(After(es, m), e, e.gameId) <==> i < m <= k && e.at < Expiry(es[i])
  {
    i := HonouredExactlyBetween(es, k, m, e.gameId, e.at);
    AcceptedExactlyWhen(After(es, m), e);
  }

  // ---- compared with testing and writing in one step ----

  /** While the lease stands nobody else changes the verified version. */
  lemma {:induction false} VerifiedWhileHeld(es: seq<Event>, i: nat, m: nat, n: nat, g: string)
    requires FreshTokens(es) && i < m <= n <= |es| && GrantsAt(es, i, g)
    requires Live(After(es, m), g, es[i].token) && Live(After(es, n), g, es[i].token)
    ensures After(es, n)[g].verified == After(es, m)[g].verified
  {
    if m < n {
      var t, e := After(es, n - 1), es[n - 1];
      if !Live(t, g, es[i].token) {
        DeadStaysDead(t, e, g, es[i].token);
        assert false;
      }
      VerifiedWhileHeld(es, i, m, n - 1, g);
      HeldStep(t, e, g, es[i].token);
    }
  }

  lemma HeldStep(t: Table, e: Event, g: string, token: string)
    requires Live(t, g, token) && Live(Apply(t, e), g, token)
    ensures Apply(t, e)[g].verified == t[g].verified
  {
    VerifiedStep(t, e, g);
    if Finishes(t, e, g) {
      FinishKills(t, e, g);
      AcceptedExactlyWhen(t, e);
    }
  }

  /** The row is as an update chosen from the row `seen` would leave it. */
  predicate AlreadyWritten(row: Row, seen: Row, e: Event)
    requires e.Finish?
  {
    var corrects := Truthy(seen.verified) && seen.verified != e.version;
    var state := if Truthy(e.version) then (if corrects then Corrected else Verified)
                 else if e.failure.Some? then e.failure.value else seen.state;
    && row.state == state && row.due == (if state == Quarantined then None else Some(e.at + e.retry))
    && row.token.None? && row.leaseUntil.None? && row.error == e.error
    && (e.version.Some? ==> row.verified == e.version)
  }

  /** A finish that passed the test after `m` calls and is written after `n` does what it would do in one step exactly
      when the lease still stands, or the row has been closed with the same columns. */
  lemma LateFinishSerialExactlyWhen(es: seq<Event>, m: nat, n: nat, e: Event)
    requires FreshTokens(es) && m <= n <= |es| && e.Finish? && Finishes(After(es, m), e, e.gameId)
    ensures var (read, t) := (After(es, m), After(es, n));
            && e.gameId in read && e.gameId in t
            && (LateFinish(read, t, e) == Apply(t, e) <==>
                Holds(t, e.gameId, e.token, e.at) || AlreadyWritten(t[e.gameId], read[e.gameId], e))
  {
    var g, read, t := e.gameId, After(es, m), After(es, n);
    AcceptedExactlyWhen(read, e);
    AcceptedExactlyWhen(t, e);
    RowsStay(es, m, n, g);
    UnchangedExactlyWhen(read[g], t[g], e);
    if Holds(t, g, e.token, e.at) {
      var i := TokenNamesLatestGrant(es, m, g);
      VerifiedWhileHeld(es, i, m, n, g);
      SameVerifiedSameClose(read[g], t[g], e);
    } else {
      assert LateFinish(read, t, e) == t <==> t[g] == LateClose(read[g], t[g], e);
    }
  }

  lemma UnchangedExactlyWhen(seen: Row, now: Row, e: Event)
    requires e.Finish?
    ensures LateClose(seen, now, e) == now <==> AlreadyWritten(now, seen, e)
  {
  }

  lemma {:induction false} RowsStay(es: seq<Event>, m: nat, n: nat, g: string)
    requires m <= n <= |es| && g in After(es, m)
    ensures g in After(es, n)
  {
    if m < n {
      RowsStay(es, m, n - 1, g);
      VerifiedStep(After(es, n - 1), es[n - 1], g);
    }
  }

  lemma SameVerifiedSameClose(seen: Row, now: Row, e: Event)
    requires e.Finish? && Acceptable(e) && seen.verified == now.verified
    ensures LateClose(seen, now, e) == Close(now, e.at, e.version, e.error, e.failure, e.retry)
  {
  }

  /** A late finish ends a lease granted meanwhile, and closes a game that is no longer final all the same. */
  lemma LateFinishOverrides(read: Table, t: Table, e: Event)
    requires e.Finish? && Finishes(read, e, e.gameId) && e.gameId in t
    ensures var row := LateFinish(read, t, e)[e.gameId];
            && row.token.None? && row.leaseUntil.None? && row.status == t[e.gameId].status && row.state != Validating
            && (Truthy(e.version) ==> row.verified == e.version)
  {
    AcceptedExactlyWhen(read, e);
  }

  // ---- runs from a new queue ----

  function LeasedOnce(): Row {
    Lease(Merge(None, Sight(0, Final), 0), 0, 300, "x")
  }

  /** A poll and a claim lead to a leased row. */
  lemma PolledAndClaimed(es: seq<Event>)
    requires |es| >= 3 && es[0] == SightEvent(0, Final, 0) && es[1] == Claim(0, 300, "x")
    ensures After(es, 2) == map["g" := LeasedOnce()] && After(es, 3) == Apply(map["g" := LeasedOnce()], es[2])
  {
    assert After(es, 0) == map[];
    SightTaken(map[], 0, Final, 0);
    SoleGrant(Merge(None, Sight(0, Final), 0), es[1]);
    assert After(es, 2) == Apply(After(es, 1), es[1]);
  }

  /** Two workers hold the same grant's token and both select before either writes: both succeed, and the second
      version replaces the first without being marked as a correction. One step at a time refuses the second. */
  lemma TwoFinishesOneGrant(first: string, second: string)
    requires first != "" && second != ""
    ensures var es := [SightEvent(0, Final, 0), Claim(0, 300, "x"), Finish("g", "x", 1, Some(first), None, None, 1)];
            var e := Finish("g", "x", 2, Some(second), None, None, 1);
            var late := LateFinish(After(es, 2), After(es, 3), e);
            && FinishesAt(es, 2, "g") && "g" in After(es, 3) && After(es, 3)["g"].verified == Some(first)
            && "g" in late && late["g"].verified == Some(second) && late["g"].state == Verified
            && Apply(After(es, 3), e) == After(es, 3)
  {
    var es := [SightEvent(0, Final, 0), Claim(0, 300, "x"), Finish("g", "x", 1, Some(first), None, None, 1)];
    PolledAndClaimed(es);
    SoleFinish(LeasedOnce(), es[2]);
  }

  /** A game un-finaled after the row was read is closed as verified while it is not final, which no sequence of whole
      calls allows. */
  lemma UnfinalGameVerified(version: string)
    requires version != ""
    ensures var es := [SightEvent(0, Final, 0), Claim(0, 300, "x"), SightEvent(1, InProgress, 1)];
            var late := LateFinish(After(es, 2), After(es, 3), Finish("g", "x", 2, Some(version), None, None, 1));
            "g" in late && late["g"].status == InProgress && late["g"].state == Verified && !RowSound(late["g"])
  {
    var es := [SightEvent(0, Final, 0), Claim(0, 300, "x"), SightEvent(1, InProgress, 1)];
    PolledAndClaimed(es);
    assert Identity(Sight(0, Final)) == Identity(FirstSight(0));
    SightTaken(map["g" := LeasedOnce()], 1, InProgress, 1);
    ClosedWhileNotFinal(Merge(Some(LeasedOnce()), Sight(1, InProgress), 1), version);
  }

  lemma ClosedWhileNotFinal(row: Row, version: string)
    requires version != "" && row.status == InProgress
    ensures var late := LateFinish(map["g" := LeasedOnce()], map["g" := row],
                                   Finish("g", "x", 2, Some(version), None, None, 1));
            "g" in late && late["g"].status == InProgress && late["g"].state == Verified && !RowSound(late["g"])
  {
  }
}
